/** No run stores a blob twice: writes stamp fresh versions, a flush and a compaction move blobs, a restart replays the
    log alone (crates/ingodb-lsm/src/lib.rs:236-636, 784-881). So the exact placement conditions of module Limits hold
    in every reachable state. */
module Copies {
  import opened Bytes
  import opened Blobs
  import opened Sorting
  import opened Views
  import opened Merging
  import opened Compaction
  import opened Tables
  import opened Lsm
  import opened Refinement
  import opened Recovery
  import opened Runs
  import opened Limits

  lemma WriteOneStoredOnce(cfg: Config, st: State, b: Blob)
    requires Inv(cfg, st) && StoredOnce(st) && st.clock <= MAX_ID
    ensures StoredOnce(WriteOne(st, b))
  {
    hide WellFormed, Ordered, Sorted, Coherent, AllEntries;
    var x := b.(version := st.clock);
    MemInsertOne(st.mem, x);
    forall t | t in st.tables ensures NoCopies(WriteOne(st, b).mem, t.entries) {
      forall y | y in MemInsert(st.mem, x) ensures y !in t.entries {
        MemInsertMembers(st.mem, x, y);
        assert NoCopies(st.mem, t.entries);
        if y in t.entries { InHeld(st, t, y); }
      }
    }
  }

  lemma {:induction false} WriteManyStoredOnce(cfg: Config, st: State, bs: seq<Blob>)
    requires Inv(cfg, st) && StoredOnce(st) && st.clock + |bs| <= MAX_ID + 1
    ensures StoredOnce(WriteMany(st, bs))
    decreases bs
  {
    if bs == [] {
      WriteManyNone(st);
    } else {
      hide Inv, WriteMany, StoredOnce;
      WriteOneStoredOnce(cfg, st, bs[0]);
      WriteOneInv(cfg, st, bs[0]);
      NextClock(st, bs[0]);
      WriteManyStoredOnce(cfg, WriteOne(st, bs[0]), bs[1..]);
      WriteManyStep(st, bs);
    }
  }

  /** A flush only moves. */
  lemma FlushStoredOnce(cfg: Config, st: State)
    requires Inv(cfg, st) && StoredOnce(st) && st.mem != []
    ensures StoredOnce(Flushed(cfg, st))
  {
    hide Inv, Sorted, WellFormed, ReadBefore;
    var t := FlushedTable(cfg, st.nextPath, st.mem);
    FlushedTableSame(cfg, st);
    SortTablesSame(cfg.ucs, [t] + st.tables);
    forall v | v in st.tables ensures NoCopies(t.entries, v.entries) && NoCopies(v.entries, t.entries) {
      assert NoCopies(st.mem, v.entries);
    }
  }

  /** So does a compaction, and it drops. */
  lemma CompactionStoredOnce(cfg: Config, st: State, inputs: seq<SstMeta>, level: nat, purge: bool)
    requires Inv(cfg, st) && StoredOnce(st) && Runnable(cfg, st, inputs, level, purge)
    ensures StoredOnce(RunCompaction(cfg, st, inputs, purge))
  {
    hide Inv, Runnable, Compacted, Inputs, NoCopies, OutputTable, SortTables;
    var rest := Outside(st.tables, Paths(inputs));
    var output := OutputTable(st.nextPath, cfg.fileSize, Output(st, inputs, purge));
    InOutside(st.tables, Paths(inputs));
    SortTablesSame(cfg.ucs, rest + [output]);
    OutputApartFromRest(cfg, st, inputs, level, purge);
  }

  lemma OutputApartFromRest(cfg: Config, st: State, inputs: seq<SstMeta>, level: nat, purge: bool)
    requires Inv(cfg, st) && StoredOnce(st) && Runnable(cfg, st, inputs, level, purge)
    ensures var output := OutputTable(st.nextPath, cfg.fileSize, Output(st, inputs, purge));
            && NoCopies(st.mem, output.entries)
            && forall t :: t in Outside(st.tables, Paths(inputs)) ==>
                 NoCopies(output.entries, t.entries) && NoCopies(t.entries, output.entries)
  {
    hide Inv, Runnable, RunCompaction, Output, OutputTable;
    var out, output := Output(st, inputs, purge), OutputTable(st.nextPath, cfg.fileSize, Output(st, inputs, purge));
    OutputTableSame(st.nextPath, cfg.fileSize, out);
    OutputCoherent(cfg, st, inputs, level, purge);
    InOutside(st.tables, Paths(inputs));
    forall b | b in output.entries ensures b !in st.mem {
      var i :| i in st.tables && i.path in Paths(inputs) && b in i.entries;
      assert NoCopies(st.mem, i.entries);
    }
    forall t, b | t in Outside(st.tables, Paths(inputs)) && b in output.entries ensures b !in t.entries {
      var i :| i in st.tables && i.path in Paths(inputs) && b in i.entries;
      assert NoCopies(i.entries, t.entries);
    }
  }

  lemma RotateStoredOnce(cfg: Config, st: State)
    requires Inv(cfg, st) && StoredOnce(st) && Placed(cfg, st)
    ensures StoredOnce(Rotate(cfg, st))
  {
    hide Inv, StoredOnce, Flushed, RunCompaction, PickCompaction, FlushOk, CompactOk, Purges;
    EmptyQueue(cfg, st);
    RotateIs(cfg, st);
    if st.mem != [] {
      var after := Flushed(cfg, st);
      FlushInv(cfg, st);
      FlushStoredOnce(cfg, st);
      match PickCompaction(cfg.ucs, Metas(after.tables))
      case None =>
      case Some(pick) =>
        PickIsRunnable(cfg, after);
        CompactionStoredOnce(cfg, after, pick.inputs, pick.outputLevel - 1,
                             Purges(pick.outputLevel, pick.maxLevel, OldestSnapshot(after.snapshots)));
    }
  }

  lemma RestartStoredOnce(cfg: Config, st: State)
    requires Inv(cfg, st) && StoredOnce(st) && AllLogged(cfg, st)
    ensures StoredOnce(Restart(cfg, st))
  {
    hide WellFormed, Sorted, Ordered, AllEntries, Recovered, CleanLog;
    LoggedClean(cfg, st);
    CleanRecovers(cfg, st);
    RestartMem(cfg, st);
    HeldCoherent(cfg, st);
    forall a | a in st.log ensures a in Held(st) {}
    MemInsertAllMembers([], st.log);
    SortTablesSame(cfg.ucs, st.tables);
    forall t | t in st.tables ensures NoCopies(Restart(cfg, st).mem, t.entries) { assert NoCopies(st.mem, t.entries); }
  }

  lemma RestartMem(cfg: Config, st: State)
    ensures Restart(cfg, st).mem == MemInsertAll([], Recovered(cfg, st))
    ensures Restart(cfg, st).tables == SortTables(cfg.ucs, st.tables)
  {
  }

  /** Every operation keeps the blobs in one place each. */
  lemma StepStoredOnce(cfg: Config, st: State, m: Model, op: Op)
    requires Inv(cfg, st) && Answers(st, m) && StoredOnce(st) && StepOk(cfg, st, op)
    ensures StoredOnce(Step(cfg, st, op))
  {
    hide Inv, Answers, Placed, AllLogged, Rotate, WriteMany, NoCopies, Restart;
    match op
    case PutBatch(bs) => WriteStoredOnce(cfg, st, m, op);
    case Delete(id) => WriteStoredOnce(cfg, st, m, op);
    case Flush => WriteManyNone(st); ClockBound(cfg, st); RotateStoredOnce(cfg, st);
    case Snapshot =>
    case Close(s) =>
    case Reopen => RestartStoredOnce(cfg, st);
  }

  lemma WriteStoredOnce(cfg: Config, st: State, m: Model, op: Op)
    requires Inv(cfg, st) && Answers(st, m) && StoredOnce(st) && StepOk(cfg, st, op) && (op.PutBatch? || op.Delete?)
    ensures StoredOnce(Write(cfg, st, Batch(op)))
  {
    hide Inv, Answers, Placed, Rotate, StoredOnce;
    if Batch(op) != [] {
      WriteManyStoredOnce(cfg, st, Batch(op));
      WriteManyAnswers(cfg, st, Batch(op), m);
      if Rotates(cfg, st, op) {
        RotateStoredOnce(cfg, WriteMany(st, Batch(op)));
      }
    }
  }

  /** No well-placed run from the empty store, restarts included, stores a blob twice. */
  lemma {:induction false} RunStoredOnce(cfg: Config, st: State, m: Model, ops: seq<Op>)
    requires Inv(cfg, st) && Answers(st, m) && StoredOnce(st) && RunPlaced(cfg, st, ops)
    ensures StoredOnce(Run(cfg, st, ops))
    decreases ops
  {
    hide Inv, Answers, Step, StepModel, StoredOnce, StepOk;
    if ops != [] {
      StepClock(cfg, st, ops[0]);
      StepAnswers(cfg, st, m, ops[0]);
      StepStoredOnce(cfg, st, m, ops[0]);
      RunStoredOnce(cfg, Step(cfg, st, ops[0]), StepModel(m, st, ops[0]), ops[1..]);
    }
  }

  /** In every reachable state a flush keeps all reads exactly when its table is placed no higher than the tables it
      shares a document with. */
  lemma ReachableFlushIff(cfg: Config, ops: seq<Op>)
    requires RunPlaced(cfg, EMPTY, ops) && Run(cfg, EMPTY, ops).mem != []
    ensures var st := Run(cfg, EMPTY, ops); ReadsExact(Sources(Flushed(cfg, st))) <==> FlushOk(cfg, st)
  {
    hide Inv, Answers, Run, ReadsExact, FlushOk, Flushed, Sources;
    ReachableFacts(cfg, ops);
    FlushReadsExactIff(cfg, Run(cfg, EMPTY, ops));
  }

  /** And so the placement that the map theorem asks of a flush is exactly what keeps its latest reads. */
  lemma ReachableFlushLatestIff(cfg: Config, ops: seq<Op>)
    requires RunPlaced(cfg, EMPTY, ops) && Run(cfg, EMPTY, ops).mem != []
    ensures var st := Run(cfg, EMPTY, ops); SameLatest(st, Flushed(cfg, st)) <==> FlushOk(cfg, st)
  {
    hide Inv, Answers, Run, SameLatest, FlushOk, Flushed;
    ReachableFacts(cfg, ops);
    FlushLatestIff(cfg, Run(cfg, EMPTY, ops));
  }

  /** And a compaction, exactly when its output is placed between the newer and the older tables it shares a document
      with. */
  lemma ReachableCompactionIff(cfg: Config, ops: seq<Op>, inputs: seq<SstMeta>, level: nat, purge: bool)
    requires RunPlaced(cfg, EMPTY, ops) && Runnable(cfg, Run(cfg, EMPTY, ops), inputs, level, purge)
    ensures var st := Run(cfg, EMPTY, ops);
            ReadsExact(Sources(RunCompaction(cfg, st, inputs, purge))) <==> RunOk(cfg, st, inputs, level, purge)
  {
    hide Inv, Answers, Run, ReadsExact, RunOk, RunCompaction, Sources, Runnable;
    ReachableFacts(cfg, ops);
    CompactionReadsExactIff(cfg, Run(cfg, EMPTY, ops), inputs, level, purge);
  }

  lemma ReachableFacts(cfg: Config, ops: seq<Op>)
    requires RunPlaced(cfg, EMPTY, ops)
    ensures Inv(cfg, Run(cfg, EMPTY, ops)) && StoredOnce(Run(cfg, EMPTY, ops))
  {
    hide Inv, Answers, Run;
    EmptyAnswers(cfg);
    RunAnswers(cfg, EMPTY, map[], ops);
    RunStoredOnce(cfg, EMPTY, map[], ops);
  }
}
