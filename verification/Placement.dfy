/** Levels a caller can check: flushed tables on level 0, compaction outputs on the level of their inputs or
    the next keep the read order throughout (crates/ingodb-lsm/src/lib.rs:575-583, 868-878, 1692-1705). */
module Placement {
  import opened Prelude
  import opened Bytes
  import opened Sorting
  import opened Views
  import opened Merging
  import opened Compaction
  import opened Tables
  import opened Lsm
  import opened Refinement
  import opened Recovery
  import opened Runs

  ghost predicate FlushOnZero(cfg: Config, st: State) {
    st.mem == [] || Level(cfg.ucs, FlushedTable(cfg, st.nextPath, st.mem)) == 0
  }

  /** The table a picked compaction writes. */
  ghost function PickedOutput(cfg: Config, st: State, pick: CompactionPick): Table {
    OutputTable(st.nextPath, cfg.fileSize,
                Output(st, pick.inputs, Purges(pick.outputLevel, pick.maxLevel, OldestSnapshot(st.snapshots))))
  }

  ghost predicate OutputNextLevel(cfg: Config, st: State) {
    match PickCompaction(cfg.ucs, Metas(st.tables))
    case None => true
    case Some(pick) =>
      PickedOutput(cfg, st, pick).entries == []
      || pick.outputLevel - 1 <= Level(cfg.ucs, PickedOutput(cfg, st, pick)) <= pick.outputLevel
  }

  /** One level up at most is automatic: a group of at most fanout-many tables whose merge does not grow
      cannot skip a level. */
  lemma OutputNotTooHigh(cfg: Config, st: State)
    requires WellFormed(st.tables) && PickCompaction(cfg.ucs, Metas(st.tables)).Some?
    ensures var pick := PickCompaction(cfg.ucs, Metas(st.tables)).value;
            |pick.inputs| <= cfg.ucs.Fanout() && PickedOutput(cfg, st, pick).size <= TotalSize(pick.inputs)
            ==> Level(cfg.ucs, PickedOutput(cfg, st, pick)) <= pick.outputLevel
  {
    hide PickCompaction, Connected, Closed, PickedOutput, Metas;
    var pick := PickCompaction(cfg.ucs, Metas(st.tables)).value;
    var output := PickedOutput(cfg, st, pick);
    MetasSound(st.tables);
    PickIsLowest(cfg.ucs, Metas(st.tables));
    AtLevelSound(cfg.ucs, Metas(st.tables), pick.outputLevel - 1);
    if |pick.inputs| <= cfg.ucs.Fanout() && output.size <= TotalSize(pick.inputs) {
      forall m | m in pick.inputs ensures cfg.ucs.LevelForSize(m.fileSize) <= pick.outputLevel - 1 {
        assert m in Elements(pick.inputs);
      }
      NotEmpty(pick.inputs);
      MergeLevelBound(cfg.ucs, pick.inputs, output.size, pick.outputLevel - 1);
    }
  }

  lemma NotEmpty(g: seq<SstMeta>)
    requires |Elements(g)| >= 1
    ensures |g| > 0
  {
    var x :| x in Elements(g);
  }

  /** On these levels flush and compaction keep the read order. */
  lemma LevelsSuffice(cfg: Config, st: State)
    requires FlushOnZero(cfg, st) && (st.mem != [] ==> OutputNextLevel(cfg, Flushed(cfg, st)))
    requires st.mem != [] ==> Inv(cfg, st)
    ensures Placed(cfg, st)
  {
    hide Inv, PickCompaction, Compacted, Sort, ShareId, Outside, Metas, FlushedTable;
    if st.mem != [] {
      FlushInv(cfg, st);
      var after := Flushed(cfg, st);
      match PickCompaction(cfg.ucs, Metas(after.tables))
      case None =>
      case Some(pick) =>
        PickIsRunnable(cfg, after);
        OutputTableSame(after.nextPath, cfg.fileSize,
                        Output(after, pick.inputs,
                               Purges(pick.outputLevel, pick.maxLevel, OldestSnapshot(after.snapshots))));
    }
  }

  /** What a caller has to watch at each step: the clock, the two levels, and no second restart before a flush. */
  ghost predicate LevelledStep(cfg: Config, st: State, op: Op) {
    && st.clock + Ticks(op) <= MAX_ID + 1
    && (Rotates(cfg, st, op) ==>
         var full := BeforeFlush(st, op);
         FlushOnZero(cfg, full) && (full.mem != [] ==> OutputNextLevel(cfg, Flushed(cfg, full))))
    && (op.Reopen? ==> AllLogged(cfg, st))
  }

  ghost predicate LevelledRun(cfg: Config, st: State, ops: seq<Op>)
    decreases ops
  {
    ops == [] || (LevelledStep(cfg, st, ops[0]) && LevelledRun(cfg, Step(cfg, st, ops[0]), ops[1..]))
  }

  lemma LevelledStepOk(cfg: Config, st: State, m: Model, op: Op)
    requires Inv(cfg, st) && Answers(st, m) && LevelledStep(cfg, st, op)
    ensures StepOk(cfg, st, op)
  {
    hide Inv, Answers, FlushOnZero, OutputNextLevel, Placed, AllLogged, Flushed;
    if Rotates(cfg, st, op) {
      WriteManyNone(st);
      if Batch(op) != [] {
        WriteManyAnswers(cfg, st, Batch(op), m);
      }
      LevelsSuffice(cfg, BeforeFlush(st, op));
    }
  }

  lemma {:induction false} LevelledRunPlaced(cfg: Config, st: State, m: Model, ops: seq<Op>)
    requires Inv(cfg, st) && Answers(st, m) && LevelledRun(cfg, st, ops)
    ensures RunPlaced(cfg, st, ops)
    decreases ops
  {
    hide Inv, Answers, Step, StepModel, LevelledStep;
    if ops != [] {
      LevelledStepOk(cfg, st, m, ops[0]);
      StepAnswers(cfg, st, m, ops[0]);
      LevelledRunPlaced(cfg, Step(cfg, st, ops[0]), StepModel(m, st, ops[0]), ops[1..]);
    }
  }

  /** The store is a map on every run that keeps to these levels. */
  lemma LevelledStoreIsMap(cfg: Config, ops: seq<Op>, id: DocumentId)
    requires LevelledRun(cfg, EMPTY, ops)
    ensures RunPlaced(cfg, EMPTY, ops)
    ensures var m := RunModel(cfg, EMPTY, map[], ops);
            Get(Run(cfg, EMPTY, ops), id) == if id in m then Some(m[id]) else None
  {
    hide Inv, Answers, RunModel, Run;
    EmptyAnswers(cfg);
    LevelledRunPlaced(cfg, EMPTY, map[], ops);
    StoreIsMap(cfg, ops, id);
  }

  /** What a caller can see of a picked compaction: at most fanout-many inputs, a file no larger than theirs together,
      and not so small that it falls below their level. */
  ghost predicate OutputModest(cfg: Config, st: State) {
    match PickCompaction(cfg.ucs, Metas(st.tables))
    case None => true
    case Some(pick) =>
      PickedOutput(cfg, st, pick).entries == []
      || (&& |pick.inputs| <= cfg.ucs.Fanout() && PickedOutput(cfg, st, pick).size <= TotalSize(pick.inputs)
          && pick.outputLevel - 1 <= Level(cfg.ucs, PickedOutput(cfg, st, pick)))
  }

  lemma ModestIsNextLevel(cfg: Config, st: State)
    requires WellFormed(st.tables) && OutputModest(cfg, st)
    ensures OutputNextLevel(cfg, st)
  {
    hide PickCompaction, PickedOutput, Metas, WellFormed;
    if PickCompaction(cfg.ucs, Metas(st.tables)).Some? {
      OutputNotTooHigh(cfg, st);
    }
  }

  ghost predicate ModestStep(cfg: Config, st: State, op: Op) {
    && st.clock + Ticks(op) <= MAX_ID + 1
    && (Rotates(cfg, st, op) ==>
         var full := BeforeFlush(st, op);
         FlushOnZero(cfg, full) && (full.mem != [] ==> OutputModest(cfg, Flushed(cfg, full))))
    && (op.Reopen? ==> AllLogged(cfg, st))
  }

  ghost predicate ModestRun(cfg: Config, st: State, ops: seq<Op>)
    decreases ops
  {
    ops == [] || (ModestStep(cfg, st, ops[0]) && ModestRun(cfg, Step(cfg, st, ops[0]), ops[1..]))
  }

  lemma ModestIsLevelled(cfg: Config, st: State, m: Model, op: Op)
    requires Inv(cfg, st) && Answers(st, m) && ModestStep(cfg, st, op)
    ensures LevelledStep(cfg, st, op)
  {
    hide Inv, Answers, FlushOnZero, OutputNextLevel, OutputModest, AllLogged, Flushed;
    if Rotates(cfg, st, op) {
      WriteManyNone(st);
      if Batch(op) != [] {
        WriteManyAnswers(cfg, st, Batch(op), m);
      }
      var full := BeforeFlush(st, op);
      if full.mem != [] {
        FlushedWellFormed(cfg, full);
        ModestIsNextLevel(cfg, Flushed(cfg, full));
      }
    }
  }

  lemma FlushedWellFormed(cfg: Config, st: State)
    requires Inv(cfg, st) && st.mem != []
    ensures WellFormed(Flushed(cfg, st).tables)
  {
    hide Inv, WellFormed, FlushedTable;
    FlushedTableSame(cfg, st);
    SortTablesSame(cfg.ucs, [FlushedTable(cfg, st.nextPath, st.mem)] + st.tables);
  }

  lemma {:induction false} ModestRunLevelled(cfg: Config, st: State, m: Model, ops: seq<Op>)
    requires Inv(cfg, st) && Answers(st, m) && ModestRun(cfg, st, ops)
    ensures LevelledRun(cfg, st, ops)
    decreases ops
  {
    hide Inv, Answers, Step, StepModel, LevelledStep, ModestStep;
    if ops != [] {
      ModestIsLevelled(cfg, st, m, ops[0]);
      LevelledStepOk(cfg, st, m, ops[0]);
      StepClock(cfg, st, ops[0]);
      StepAnswers(cfg, st, m, ops[0]);
      ModestRunLevelled(cfg, Step(cfg, st, ops[0]), StepModel(m, st, ops[0]), ops[1..]);
    }
  }

  /** The store is a map on every run of level-0 flushes and modest merges: that no merge skips a level is proved, not
      assumed. */
  lemma ModestStoreIsMap(cfg: Config, ops: seq<Op>, id: DocumentId)
    requires ModestRun(cfg, EMPTY, ops)
    ensures RunPlaced(cfg, EMPTY, ops)
    ensures var m := RunModel(cfg, EMPTY, map[], ops);
            Get(Run(cfg, EMPTY, ops), id) == if id in m then Some(m[id]) else None
  {
    hide Inv, Answers, RunModel, Run;
    EmptyAnswers(cfg);
    ModestRunLevelled(cfg, EMPTY, map[], ops);
    LevelledStoreIsMap(cfg, ops, id);
  }
}
