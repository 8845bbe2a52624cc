/** All runs: after any sequence of well-placed steps the store answers as a map. */
module Runs {
  import opened Prelude
  import opened Bytes
  import opened Blobs
  import opened Sorting
  import opened Views
  import opened Merging
  import opened Compaction
  import opened Tables
  import opened Lsm
  import opened Refinement
  import opened Recovery
  import opened Codec
  import opened Wal

  datatype Op =
    | PutBatch(blobs: seq<Blob>)
    | Delete(id: DocumentId)
    | Flush
    | Snapshot
    | Close(snapshot: DocumentId)
    | Reopen

  ghost function Batch(op: Op): seq<Blob> {
    match op
    case PutBatch(bs) => bs
    case Delete(id) => [Tombstone(id)]
    case _ => []
  }

  /** How many versions the operation takes from the clock. */
  ghost function Ticks(op: Op): nat { |Batch(op)| + if op.Snapshot? then 1 else 0 }

  ghost function Step(cfg: Config, st: State, op: Op): State
    requires st.clock + Ticks(op) <= MAX_ID + 1
  {
    match op
    case PutBatch(bs) => Write(cfg, st, bs)
    case Delete(id) => Write(cfg, st, [Tombstone(id)])
    case Flush => Rotate(cfg, st)
    case Snapshot => OpenSnapshot(st)
    case Close(s) => CloseSnapshot(st, s)
    case Reopen => Restart(cfg, st)
  }

  /** The state just before a possible flush. */
  ghost function BeforeFlush(st: State, op: Op): State
    requires st.clock + Ticks(op) <= MAX_ID + 1
  {
    WriteMany(st, Batch(op))
  }

  ghost predicate Rotates(cfg: Config, st: State, op: Op)
    requires st.clock + Ticks(op) <= MAX_ID + 1
  {
    op.Flush? || (Batch(op) != [] && MemSize(cfg.blobSize, BeforeFlush(st, op).mem) >= cfg.memtableSize)
  }

  /** The hypotheses of one step: the clock does not run out; if the step flushes, the new table and any
      compaction output are placed in read order; and a restart finds the memtable logged. */
  ghost predicate Placed(cfg: Config, st: State) {
    FlushOk(cfg, st) && (st.mem != [] ==> CompactOk(cfg, Flushed(cfg, st)))
  }

  ghost predicate StepOk(cfg: Config, st: State, op: Op) {
    && st.clock + Ticks(op) <= MAX_ID + 1
    && (Rotates(cfg, st, op) ==> Placed(cfg, BeforeFlush(st, op)))
    && (op.Reopen? ==> AllLogged(cfg, st))
  }

  ghost function StepModel(m: Model, st: State, op: Op): Model
    requires st.clock + Ticks(op) <= MAX_ID + 1
  {
    ApplyAll(m, Stamp(Batch(op), st.clock))
  }

  /** What the map makes of an operation: a put stores the document under its id, stamped with the clock, a deletion
      removes the id, and a batch does so write by write, the later one winning. */
  lemma ModelMeaning(m: Model, st: State, b: Blob, c: Blob, id: DocumentId)
    requires st.clock + 2 <= MAX_ID + 1 && b.flags % 2 == 0 && c.flags % 2 == 0
    ensures StepModel(m, st, PutBatch([b])) == m[b.id := b.(version := st.clock)]
    ensures StepModel(m, st, Delete(id)) == m - {id}
    ensures StepModel(m, st, PutBatch([b, c])) ==
            m[b.id := b.(version := st.clock)][c.id := c.(version := st.clock + 1)]
  {
    var x, y := b.(version := st.clock), c.(version := st.clock + 1);
    assert Stamp([b], st.clock) == [x] && Stamp([b, c], st.clock) == [x, y] && [x, y][1..] == [y];
    OneApplied(m, x);
    OneApplied(Apply(m, x), y);
    OneApplied(m, Tombstone(id).(version := st.clock));
    assert Stamp([Tombstone(id)], st.clock) == [Tombstone(id).(version := st.clock)];
  }

  lemma OneApplied(m: Model, b: Blob)
    ensures ApplyAll(m, [b]) == Apply(m, b)
  {
    assert ApplyAll(m, [b]) == ApplyAll(Apply(m, b), [b][1..]);
  }

  lemma RotateAnswers(cfg: Config, st: State, m: Model)
    requires Inv(cfg, st) && Placed(cfg, st) && Answers(st, m)
    ensures Inv(cfg, Rotate(cfg, st)) && Answers(Rotate(cfg, st), m)
  {
    hide Inv, Rotate, MaybeCompact, Flushed, Get, CompactOk, FlushOk;
    EmptyQueue(cfg, st);
    RotateIs(cfg, st);
    if st.mem != [] {
      var st1 := Flushed(cfg, st);
      FlushKeepsViews(cfg, st, 0, 0);
      forall id ensures Get(st1, id) == Get(st, id) {
        FlushKeepsViews(cfg, st, id, MAX_ID);
        GetIs(st, id);
        GetIs(st1, id);
      }
      MaybeCompactKeeps(cfg, st1, 0);
      forall id ensures Get(MaybeCompact(cfg, st1), id) == Get(st, id) { MaybeCompactKeeps(cfg, st1, id); }
    }
  }

  lemma GetIs(st: State, id: DocumentId)
    ensures Get(st, id) == Live(Find(st, id, MAX_ID))
  {
  }

  lemma EmptyQueue(cfg: Config, st: State)
    requires Inv(cfg, st)
    ensures st.queued == [] && !st.background
  {
  }

  /** One inline compaction, when its output is well placed, keeps the invariant and all latest reads. */
  lemma MaybeCompactKeeps(cfg: Config, st: State, id: DocumentId)
    requires Inv(cfg, st) && CompactOk(cfg, st)
    ensures Inv(cfg, MaybeCompact(cfg, st)) && Get(MaybeCompact(cfg, st), id) == Get(st, id)
  {
    hide Inv, Get, RunCompaction, PickCompaction, RunOk, Purges;
    match PickCompaction(cfg.ucs, Metas(st.tables))
    case None =>
    case Some(pick) =>
      var purge := Purges(pick.outputLevel, pick.maxLevel, OldestSnapshot(st.snapshots));
      PickIsRunnable(cfg, st);
      CompactionInv(cfg, st, pick.inputs, pick.outputLevel - 1, purge);
      CompactionKeepsLatest(cfg, st, pick.inputs, pick.outputLevel - 1, purge, id);
  }

  /** Every step keeps the invariant and the agreement with the map. */
  lemma StepAnswers(cfg: Config, st: State, m: Model, op: Op)
    requires Inv(cfg, st) && Answers(st, m) && StepOk(cfg, st, op)
    ensures Inv(cfg, Step(cfg, st, op)) && Answers(Step(cfg, st, op), StepModel(m, st, op))
  {
    hide Inv, Answers, Placed, AllLogged, Rotate, WriteMany;
    match op
    case PutBatch(bs) => WriteAnswers(cfg, st, m, op);
    case Delete(id) => WriteAnswers(cfg, st, m, op);
    case Flush => WriteManyNone(st); ClockBound(cfg, st); RotateAnswers(cfg, st, m);
    case Snapshot => SnapshotAnswers(cfg, st, m, OpenSnapshot(st));
    case Close(s) => SnapshotAnswers(cfg, st, m, CloseSnapshot(st, s));
    case Reopen => RestartAnswers(cfg, st, m);
  }

  lemma ClockBound(cfg: Config, st: State)
    requires Inv(cfg, st)
    ensures st.clock <= MAX_ID + 1
  {
  }

  lemma WriteAnswers(cfg: Config, st: State, m: Model, op: Op)
    requires Inv(cfg, st) && Answers(st, m) && StepOk(cfg, st, op) && (op.PutBatch? || op.Delete?)
    ensures Inv(cfg, Write(cfg, st, Batch(op))) && Answers(Write(cfg, st, Batch(op)), StepModel(m, st, op))
  {
    hide Inv, Answers, Placed, Rotate;
    if Batch(op) != [] {
      WriteManyAnswers(cfg, st, Batch(op), m);
      if Rotates(cfg, st, op) {
        RotateAnswers(cfg, WriteMany(st, Batch(op)), StepModel(m, st, op));
      }
    }
  }

  lemma SnapshotAnswers(cfg: Config, st: State, m: Model, after: State)
    requires Inv(cfg, st) && Answers(st, m)
    requires after == st.(snapshots := after.snapshots, clock := after.clock)
    requires st.clock <= after.clock <= MAX_ID + 1
    requires forall s :: s in after.snapshots ==> s in st.snapshots || s < after.clock
    ensures Inv(cfg, after) && Answers(after, m)
  {
    hide Sorted, WellFormed, Ordered, ReadBefore;
    assert Held(after) == Held(st) && Sources(after) == Sources(st);
    forall id ensures Get(after, id) == Get(st, id) {}
  }

  ghost predicate RunPlaced(cfg: Config, st: State, ops: seq<Op>)
    decreases ops
  {
    ops == [] || (StepOk(cfg, st, ops[0]) && RunPlaced(cfg, Step(cfg, st, ops[0]), ops[1..]))
  }

  ghost function Run(cfg: Config, st: State, ops: seq<Op>): State
    requires RunPlaced(cfg, st, ops)
    decreases ops
  {
    if ops == [] then st else Run(cfg, Step(cfg, st, ops[0]), ops[1..])
  }

  ghost function RunModel(cfg: Config, st: State, m: Model, ops: seq<Op>): Model
    requires RunPlaced(cfg, st, ops)
    decreases ops
  {
    if ops == [] then m else RunModel(cfg, Step(cfg, st, ops[0]), StepModel(m, st, ops[0]), ops[1..])
  }

  lemma {:induction false} RunAnswers(cfg: Config, st: State, m: Model, ops: seq<Op>)
    requires Inv(cfg, st) && Answers(st, m) && RunPlaced(cfg, st, ops)
    ensures Inv(cfg, Run(cfg, st, ops)) && Answers(Run(cfg, st, ops), RunModel(cfg, st, m, ops))
    decreases ops
  {
    hide Inv, Answers, Step, StepModel;
    if ops != [] {
      StepAnswers(cfg, st, m, ops[0]);
      RunAnswers(cfg, Step(cfg, st, ops[0]), StepModel(m, st, ops[0]), ops[1..]);
    }
  }

  lemma EmptyAnswers(cfg: Config)
    ensures Inv(cfg, EMPTY) && Answers(EMPTY, map[]) && AllLogged(cfg, EMPTY)
  {
    assert Sources(EMPTY) == [[]];
    forall id ensures Get(EMPTY, id) == None { assert FirstMatch([[]], id, MAX_ID) == FirstMatch([], id, MAX_ID); }
  }

  /** The store is a map: after every run of well-placed steps from an empty store, each id reads back
      the last document written for it, and nothing if it was never written or last deleted. */
  lemma StoreIsMap(cfg: Config, ops: seq<Op>, id: DocumentId)
    requires RunPlaced(cfg, EMPTY, ops)
    ensures var m := RunModel(cfg, EMPTY, map[], ops);
            Get(Run(cfg, EMPTY, ops), id) == if id in m then Some(m[id]) else None
  {
    EmptyAnswers(cfg);
    RunAnswers(cfg, EMPTY, map[], ops);
  }

  // ---- crashes after a run ----

  /** No restart, and documents that fit the log. */
  ghost predicate Plain(cfg: Config, op: Op) { !op.Reopen? && (op.PutBatch? ==> AllLoggable(cfg.env, op.blobs)) }

  lemma TombstoneLoggable(env: Env, id: DocumentId)
    ensures AllLoggable(env, [Tombstone(id)])
  {
    hide SortedIndex, ContentHash, Index, IndexBytes;
  }

  lemma PlainStamped(cfg: Config, st: State, op: Op)
    requires Plain(cfg, op) && st.clock + Ticks(op) <= MAX_ID + 1
    ensures AllLoggable(cfg.env, Stamp(Batch(op), st.clock))
  {
    hide Loggable;
    if op.Delete? {
      TombstoneLoggable(cfg.env, op.id);
    }
    StampLoggable(cfg.env, Batch(op), st.clock);
  }

  /** A step without restart leaves a state that a restart would reproduce. */
  lemma StepLogged(cfg: Config, st: State, op: Op)
    requires Inv(cfg, st) && AllLogged(cfg, st) && StepOk(cfg, st, op) && Plain(cfg, op)
    ensures AllLogged(cfg, Step(cfg, st, op))
  {
    hide Inv, FlushOk, CompactOk, Find, AllLoggable, AllEntries;
    if op.PutBatch? || op.Delete? || op.Flush? {
      WriteManyNone(st);
      ClockBound(cfg, st);
      PlainStamped(cfg, st, op);
      WriteManyLogged(cfg, st, Batch(op));
      var mid := WriteMany(st, Batch(op));
      EmptyQueue(cfg, mid);
      RotateIs(cfg, mid);
      CompactKeepsMem(cfg, Flushed(cfg, mid));
      EmptyLoggable(cfg.env);
    }
  }

  lemma EmptyLoggable(env: Env)
    ensures AllLoggable(env, [])
  {
  }

  ghost predicate AllPlain(cfg: Config, ops: seq<Op>) { forall op :: op in ops ==> Plain(cfg, op) }

  /** So does a whole run without restart. */
  lemma {:induction false} RunLogged(cfg: Config, st: State, m: Model, ops: seq<Op>)
    requires Inv(cfg, st) && Answers(st, m) && AllLogged(cfg, st) && RunPlaced(cfg, st, ops) && AllPlain(cfg, ops)
    ensures AllLogged(cfg, Run(cfg, st, ops))
    decreases ops
  {
    hide Inv, Answers, Step, StepModel, AllLogged, Plain, StepOk;
    if ops != [] {
      assert ops == [ops[0]] + ops[1..];
      StepClock(cfg, st, ops[0]);
      StepAnswers(cfg, st, m, ops[0]);
      StepLogged(cfg, st, ops[0]);
      RunLogged(cfg, Step(cfg, st, ops[0]), StepModel(m, st, ops[0]), ops[1..]);
    }
  }

  lemma StepClock(cfg: Config, st: State, op: Op)
    requires StepOk(cfg, st, op)
    ensures st.clock + Ticks(op) <= MAX_ID + 1
  {
  }

  /** After any well-placed run without restart, a crash at any byte of the next batch's log records reopens to the
      map after the run and some prefix of the batch. */
  lemma CrashAfterRun(cfg: Config, ops: seq<Op>, bs: seq<Blob>, n: nat) returns (k: nat)
    requires RunPlaced(cfg, EMPTY, ops) && AllPlain(cfg, ops) && AllLoggable(cfg.env, bs)
    requires var st := Run(cfg, EMPTY, ops);
             && st.clock + |bs| <= MAX_ID + 1
             && |LogBytes(cfg.env, st.log)| <= n <= |LogBytes(cfg.env, st.log + Stamp(bs, st.clock))|
    ensures k <= |bs|
    ensures var st := Run(cfg, EMPTY, ops);
            var file := LogBytes(cfg.env, st.log + Stamp(bs, st.clock))[..n];
            var after := Open(cfg, file, st.tables, st.clock + |bs|);
            Inv(cfg, after) && Answers(after, ApplyAll(RunModel(cfg, EMPTY, map[], ops), Stamp(bs, st.clock)[..k]))
  {
    hide Inv, Answers, AllLogged, Run, RunModel, LogBytes, AllPlain, AllLoggable, Open;
    var st, m := Run(cfg, EMPTY, ops), RunModel(cfg, EMPTY, map[], ops);
    EmptyAnswers(cfg);
    RunAnswers(cfg, EMPTY, map[], ops);
    RunLogged(cfg, EMPTY, map[], ops);
    StampLoggable(cfg.env, bs, st.clock);
    k := CrashAtAnyByte(cfg, st, m, bs, n);
  }

  /** And a crash between a flush's table write and its log reset reopens to the map after the run. */
  lemma CrashInFlushAfterRun(cfg: Config, ops: seq<Op>, id: DocumentId)
    requires RunPlaced(cfg, EMPTY, ops) && AllPlain(cfg, ops)
    requires Run(cfg, EMPTY, ops).mem != [] && FlushOk(cfg, Run(cfg, EMPTY, ops))
    ensures var st, m := Run(cfg, EMPTY, ops), RunModel(cfg, EMPTY, map[], ops);
            var after := Open(cfg, LogFile(cfg.env, st), TableWritten(cfg, st.(mem := []), st.mem).tables, st.clock);
            Inv(cfg, after) && Get(after, id) == if id in m then Some(m[id]) else None
  {
    hide Inv, Run, RunModel, LogFile, FlushOk, Open, TableWritten, Find, AllPlain, Recovered, AllLoggable;
    var st := Run(cfg, EMPTY, ops);
    EmptyAnswers(cfg);
    RunAnswers(cfg, EMPTY, map[], ops);
    RunLogged(cfg, EMPTY, map[], ops);
    LoggedClean(cfg, st);
    CleanRecovers(cfg, st);
    CrashInFlush(cfg, st, id, MAX_ID);
    GetIs(st, id);
    GetIs(Open(cfg, LogFile(cfg.env, st), TableWritten(cfg, st.(mem := []), st.mem).tables, st.clock), id);
  }

  lemma CompactKeepsMem(cfg: Config, st: State)
    ensures MaybeCompact(cfg, st).mem == st.mem && MaybeCompact(cfg, st).log == st.log
    ensures MaybeCompact(cfg, st).torn == st.torn
  {
  }
}
