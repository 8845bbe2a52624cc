/** What an open snapshot reads over a whole run (crates/ingodb-lsm/src/lib.rs:329-636, 1038-1053): it keeps what it
    saw exactly until a compaction drops that version. */
module Snapshots {
  import opened Bytes
  import opened Blobs
  import opened Views
  import opened Merging
  import opened Compaction
  import opened Tables
  import opened Lsm
  import opened Refinement
  import opened Recovery
  import opened Runs

  /** The compaction that is due, if any, leaves this version: it is elsewhere too, or the newest of its document among
      the inputs, or not older than the oldest snapshot. */
  ghost predicate Spares(cfg: Config, st: State, b: Blob) {
    match PickCompaction(cfg.ucs, Metas(st.tables))
    case None => true
    case Some(pick) =>
      || b in st.mem || b in AllEntries(Outside(st.tables, Paths(pick.inputs)))
      || IsNewest(b, Inputs(st.tables, pick.inputs))
      || (st.snapshots != {} && b.version >= OldestSnapshot(st.snapshots).value)
  }

  /** A compaction under an open snapshot keeps a read exactly when it spares the version shown. */
  lemma CompactionSpares(cfg: Config, st: State, id: DocumentId, s: DocumentId)
    requires Inv(cfg, st) && CompactOk(cfg, st) && st.snapshots != {}
    ensures var before := Find(st, id, s);
            Find(MaybeCompact(cfg, st), id, s) == before <==> before.None? || Spares(cfg, st, before.value)
  {
    hide Inv, RunCompaction, PickCompaction, RunOk, Find;
    match PickCompaction(cfg.ucs, Metas(st.tables))
    case None =>
    case Some(pick) =>
      PickIsRunnable(cfg, st);
      CompactionSnapshotView(cfg, st, pick.inputs, pick.outputLevel - 1, id, s);
  }

  /** The compaction of this step, if it has one, spares the version. */
  ghost predicate StepSpares(cfg: Config, st: State, op: Op, b: Blob)
    requires st.clock + Ticks(op) <= MAX_ID + 1
  {
    Rotates(cfg, st, op) && BeforeFlush(st, op).mem != [] ==> Spares(cfg, Flushed(cfg, BeforeFlush(st, op)), b)
  }

  /** The snapshot stays open: it is not closed, and the engine is not restarted. */
  ghost predicate LeavesOpen(op: Op, s: DocumentId) { !op.Reopen? && op != Close(s) }

  lemma OpenIssued(cfg: Config, st: State, s: DocumentId)
    requires Inv(cfg, st) && s in st.snapshots
    ensures s < st.clock <= MAX_ID + 1
  {
  }

  lemma RotateSpares(cfg: Config, st: State, id: DocumentId, s: DocumentId)
    requires Inv(cfg, st) && Placed(cfg, st) && s in st.snapshots
    ensures var before := Find(st, id, s);
            Find(Rotate(cfg, st), id, s) == before <==>
              before.None? || (st.mem != [] ==> Spares(cfg, Flushed(cfg, st), before.value))
    ensures Rotate(cfg, st).snapshots == st.snapshots
  {
    hide Inv, FlushOk, CompactOk, Spares, Find, MaybeCompact;
    EmptyQueue(cfg, st);
    RotateIs(cfg, st);
    if st.mem != [] {
      FlushKeepsViews(cfg, st, id, s);
      CompactionSpares(cfg, Flushed(cfg, st), id, s);
      CompactSnapshots(cfg, Flushed(cfg, st));
    }
  }

  lemma CompactSnapshots(cfg: Config, st: State)
    ensures MaybeCompact(cfg, st).snapshots == st.snapshots
  {
  }

  /** One step keeps the read exactly when its compaction, if it has one, spares the version shown. */
  lemma StepSnapshot(cfg: Config, st: State, m: Model, op: Op, id: DocumentId, s: DocumentId)
    requires Inv(cfg, st) && Answers(st, m) && StepOk(cfg, st, op) && s in st.snapshots && LeavesOpen(op, s)
    ensures s in Step(cfg, st, op).snapshots
    ensures var before := Find(st, id, s);
            Find(Step(cfg, st, op), id, s) == before <==> before.None? || StepSpares(cfg, st, op, before.value)
  {
    hide Inv, Answers, Placed, Rotate, Find, Spares, AllLogged, Flushed;
    OpenIssued(cfg, st, s);
    if op.PutBatch? || op.Delete? || op.Flush? {
      WriteManyNone(st);
      WriteManyAnswers(cfg, st, Batch(op), m);
      WritesKeepSnapshots(cfg, st, Batch(op), id, s);
      if Rotates(cfg, st, op) {
        RotateSpares(cfg, BeforeFlush(st, op), id, s);
      }
    } else {
      SameSources(st, Step(cfg, st, op), id, s);
    }
  }

  lemma SameSources(st: State, after: State, id: DocumentId, s: DocumentId)
    requires after.mem == st.mem && after.queued == st.queued && after.tables == st.tables
    ensures Find(after, id, s) == Find(st, id, s)
  {
  }

  // ---- which snapshots are open ----

  /** Closing takes away exactly that snapshot, and changes nothing else. */
  lemma CloseIs(st: State, s: DocumentId, x: DocumentId)
    ensures x in CloseSnapshot(st, s).snapshots <==> x in st.snapshots && x != s
    ensures CloseSnapshot(st, s).(snapshots := st.snapshots) == st
  {
  }

  /** Opening and then closing leaves no trace but the version taken. */
  lemma OpenThenClose(cfg: Config, st: State)
    requires Inv(cfg, st) && st.clock <= MAX_ID
    ensures CloseSnapshot(OpenSnapshot(st), st.clock) == st.(clock := st.clock + 1)
  {
    hide WellFormed, Ordered, LogFits, Coherent, KeyStrict;
    assert st.clock !in st.snapshots;
    assert st.snapshots + {st.clock} - {st.clock} == st.snapshots;
  }

  lemma RotateSnapshots(cfg: Config, st: State)
    requires Inv(cfg, st)
    ensures Rotate(cfg, st).snapshots == st.snapshots
  {
    hide Inv, MaybeCompact, Flushed;
    EmptyQueue(cfg, st);
    RotateIs(cfg, st);
    if st.mem != [] {
      FlushedSnapshots(cfg, st);
      CompactSnapshots(cfg, Flushed(cfg, st));
    }
  }

  lemma FlushedSnapshots(cfg: Config, st: State)
    ensures Flushed(cfg, st).snapshots == st.snapshots
  {
  }

  lemma StepOpen(cfg: Config, st: State, m: Model, op: Op, s: DocumentId)
    requires Inv(cfg, st) && Answers(st, m) && StepOk(cfg, st, op)
    ensures s in Step(cfg, st, op).snapshots <==>
            (s in st.snapshots && LeavesOpen(op, s)) || (op.Snapshot? && s == st.clock)
  {
    hide Inv, Answers, Placed, AllLogged, Rotate;
    if op.PutBatch? || op.Delete? || op.Flush? {
      ClockBound(cfg, st);
      WriteManyNone(st);
      WriteManyAnswers(cfg, st, Batch(op), m);
      if Rotates(cfg, st, op) {
        RotateSnapshots(cfg, BeforeFlush(st, op));
      }
    }
  }

  /** The state before operation `i` of a run. */
  ghost function Upto(cfg: Config, st: State, ops: seq<Op>, i: nat): State
    requires RunPlaced(cfg, st, ops) && i <= |ops|
    decreases i
  {
    if i == 0 then st else Upto(cfg, Step(cfg, st, ops[0]), ops[1..], i - 1)
  }

  /** Operation `i` opens the snapshot, and nothing after it closes it or restarts the engine. */
  ghost predicate OpenedAt(cfg: Config, st: State, ops: seq<Op>, i: nat, s: DocumentId)
    requires RunPlaced(cfg, st, ops)
  {
    && i < |ops| && ops[i].Snapshot? && Upto(cfg, st, ops, i).clock == s
    && forall j :: i < j < |ops| ==> LeavesOpen(ops[j], s)
  }

  /** Over a placed run a snapshot is open exactly when it was, or was opened, and since then it was neither closed nor
      ended by a restart. */
  lemma {:induction false} OpenIff(cfg: Config, st: State, m: Model, ops: seq<Op>, s: DocumentId)
    requires Inv(cfg, st) && Answers(st, m) && RunPlaced(cfg, st, ops)
    ensures s in Run(cfg, st, ops).snapshots <==>
            (s in st.snapshots && forall j :: 0 <= j < |ops| ==> LeavesOpen(ops[j], s))
            || exists i: nat :: OpenedAt(cfg, st, ops, i, s)
    decreases ops
  {
    hide Inv, Answers, Step, StepModel, StepOk;
    if ops != [] {
      var rest := ops[1..];
      StepClock(cfg, st, ops[0]);
      var next := Step(cfg, st, ops[0]);
      StepAnswers(cfg, st, m, ops[0]);
      StepOpen(cfg, st, m, ops[0], s);
      OpenIff(cfg, next, StepModel(m, st, ops[0]), rest, s);
      assert forall j :: 1 <= j < |ops| ==> ops[j] == rest[j - 1];
      assert forall j :: 0 <= j < |rest| ==> rest[j] == ops[j + 1];
      forall i: nat ensures OpenedAt(cfg, next, rest, i, s) <==> OpenedAt(cfg, st, ops, i + 1, s) {
        OpenedLater(cfg, st, ops, i, s);
      }
      OpenedFirst(cfg, st, ops, s);
      if i: nat :| OpenedAt(cfg, st, ops, i, s) {
        assert i > 0 ==> OpenedAt(cfg, next, rest, i - 1, s);
      }
    }
  }

  lemma OpenedLater(cfg: Config, st: State, ops: seq<Op>, i: nat, s: DocumentId)
    requires ops != [] && RunPlaced(cfg, st, ops) && st.clock + Ticks(ops[0]) <= MAX_ID + 1
    requires RunPlaced(cfg, Step(cfg, st, ops[0]), ops[1..])
    ensures OpenedAt(cfg, Step(cfg, st, ops[0]), ops[1..], i, s) <==> OpenedAt(cfg, st, ops, i + 1, s)
  {
    hide Step, StepOk;
    var rest := ops[1..];
    assert forall j :: 1 <= j < |ops| ==> ops[j] == rest[j - 1];
    assert forall j :: 0 <= j < |rest| ==> rest[j] == ops[j + 1];
  }

  lemma OpenedFirst(cfg: Config, st: State, ops: seq<Op>, s: DocumentId)
    requires ops != [] && RunPlaced(cfg, st, ops)
    ensures OpenedAt(cfg, st, ops, 0, s) <==>
            ops[0].Snapshot? && st.clock == s && forall j :: 1 <= j < |ops| ==> LeavesOpen(ops[j], s)
  {
    hide Step, StepOk;
  }

  // ---- what is dropped stays dropped ----

  lemma CompactionInvents(cfg: Config, st: State, b: Blob)
    requires Inv(cfg, st) && CompactOk(cfg, st) && b in Held(MaybeCompact(cfg, st))
    ensures b in Held(st)
  {
    hide Inv, RunCompaction, PickCompaction, RunOk, Held, Purges;
    match PickCompaction(cfg.ucs, Metas(st.tables))
    case None =>
    case Some(pick) =>
      PickIsRunnable(cfg, st);
      CompactionInv(cfg, st, pick.inputs, pick.outputLevel - 1,
                    Purges(pick.outputLevel, pick.maxLevel, OldestSnapshot(st.snapshots)));
  }

  lemma {:induction false} WritesHold(cfg: Config, st: State, bs: seq<Blob>, b: Blob)
    requires Inv(cfg, st) && st.clock + |bs| <= MAX_ID + 1 && b.version < st.clock
    ensures b in Held(WriteMany(st, bs)) ==> b in Held(st)
    decreases bs
  {
    if bs == [] {
      WriteManyNone(st);
    } else {
      hide Inv, WriteMany, Held, WriteOne;
      WriteOneInv(cfg, st, bs[0]);
      NextClock(st, bs[0]);
      WritesHold(cfg, WriteOne(st, bs[0]), bs[1..], b);
      WriteManyStep(st, bs);
    }
  }

  lemma RotateHolds(cfg: Config, st: State, b: Blob)
    requires Inv(cfg, st) && Placed(cfg, st)
    ensures b in Held(Rotate(cfg, st)) ==> b in Held(st)
  {
    hide Inv, FlushOk, CompactOk, Held, MaybeCompact, Flushed;
    EmptyQueue(cfg, st);
    RotateIs(cfg, st);
    if st.mem != [] && b in Held(Rotate(cfg, st)) {
      FlushInv(cfg, st);
      CompactionInvents(cfg, Flushed(cfg, st), b);
    }
  }

  /** A step brings nothing old back. */
  lemma StepHolds(cfg: Config, st: State, m: Model, op: Op, b: Blob)
    requires Inv(cfg, st) && Answers(st, m) && StepOk(cfg, st, op) && !op.Reopen? && b.version < st.clock
    ensures b in Held(Step(cfg, st, op)) ==> b in Held(st)
  {
    hide Inv, Answers, Placed, Rotate, AllLogged, Flushed, AllEntries;
    if op.PutBatch? || op.Delete? || op.Flush? {
      ClockBound(cfg, st);
      WriteManyNone(st);
      WriteManyAnswers(cfg, st, Batch(op), m);
      WritesHold(cfg, st, Batch(op), b);
      if Rotates(cfg, st, op) {
        RotateHolds(cfg, BeforeFlush(st, op), b);
      }
    }
  }

  lemma StepTime(cfg: Config, st: State, m: Model, op: Op)
    requires Inv(cfg, st) && Answers(st, m) && StepOk(cfg, st, op) && !op.Reopen?
    ensures Step(cfg, st, op).clock >= st.clock
  {
    hide Inv, Answers, Placed, AllLogged, MaybeCompact, Flushed, Rotate;
    if Rotates(cfg, st, op) {
      ClockBound(cfg, st);
      WriteManyNone(st);
      WriteManyAnswers(cfg, st, Batch(op), m);
      RotateTime(cfg, BeforeFlush(st, op));
    }
  }

  lemma RotateTime(cfg: Config, st: State)
    requires Inv(cfg, st)
    ensures Rotate(cfg, st).clock == st.clock
  {
    hide Inv, PickCompaction, RunCompaction;
    EmptyQueue(cfg, st);
    RotateIs(cfg, st);
    CompactTime(cfg, Flushed(cfg, st));
  }

  lemma CompactTime(cfg: Config, st: State)
    ensures MaybeCompact(cfg, st).clock == st.clock
  {
  }

  /** Nor does a run. */
  lemma {:induction false} GoneStays(cfg: Config, st: State, m: Model, ops: seq<Op>, b: Blob)
    requires Inv(cfg, st) && Answers(st, m) && RunPlaced(cfg, st, ops) && b.version < st.clock
    requires b !in Held(st) && forall op :: op in ops ==> !op.Reopen?
    ensures b !in Held(Run(cfg, st, ops))
    decreases ops
  {
    hide Inv, Answers, Step, StepModel, StepOk, Held;
    if ops != [] {
      assert ops == [ops[0]] + ops[1..];
      StepClock(cfg, st, ops[0]);
      StepAnswers(cfg, st, m, ops[0]);
      StepHolds(cfg, st, m, ops[0], b);
      StepTime(cfg, st, m, ops[0]);
      GoneStays(cfg, Step(cfg, st, ops[0]), StepModel(m, st, ops[0]), ops[1..], b);
    }
  }

  /** A version that a snapshot showed and shows no longer is gone. */
  lemma NotShownIsGone(cfg: Config, st: State, m: Model, op: Op, id: DocumentId, s: DocumentId)
    requires Inv(cfg, st) && Answers(st, m) && StepOk(cfg, st, op) && s in st.snapshots && LeavesOpen(op, s)
    requires Find(st, id, s).Some? && Find(Step(cfg, st, op), id, s) != Find(st, id, s)
    ensures var b := Find(st, id, s).value;
            b !in Held(Step(cfg, st, op)) && b.version < st.clock && Shows(b, id, s)
  {
    hide Inv, Answers, Find, Visible, Held, Step, StepOk, StepModel, Coherent;
    StepClock(cfg, st, op);
    var b, after := Find(st, id, s).value, Step(cfg, st, op);
    OpenIssued(cfg, st, s);
    StepAnswers(cfg, st, m, op);
    LookupIsView(cfg, st, id, s);
    LookupIsView(cfg, after, id, s);
    HeldCoherent(cfg, after);
    if b in Held(after) {
      forall c | c in Held(after) && Shows(c, id, s) ensures c.version <= b.version { StepHolds(cfg, st, m, op, c); }
      VisibleUnique(Held(after), id, s, b);
      assert false;
    }
  }

  // ---- whole runs ----

  /** No compaction of the run drops the version. */
  ghost predicate RunSpares(cfg: Config, st: State, ops: seq<Op>, b: Blob)
    requires RunPlaced(cfg, st, ops)
    decreases ops
  {
    ops == [] || (StepSpares(cfg, st, ops[0], b) && RunSpares(cfg, Step(cfg, st, ops[0]), ops[1..], b))
  }

  /** Over any placed run under which a snapshot stays open, its read is unchanged exactly when no compaction of the run
      drops the version it showed. */
  lemma {:induction false} RunSnapshotIff(cfg: Config, st: State, m: Model, ops: seq<Op>, id: DocumentId, s: DocumentId)
    requires Inv(cfg, st) && Answers(st, m) && RunPlaced(cfg, st, ops)
    requires s in st.snapshots && forall op :: op in ops ==> LeavesOpen(op, s)
    ensures var before := Find(st, id, s);
            Find(Run(cfg, st, ops), id, s) == before <==> before.None? || RunSpares(cfg, st, ops, before.value)
    decreases ops
  {
    hide Inv, Answers, Step, StepModel, StepOk, Find, StepSpares, Held;
    if ops != [] {
      assert ops == [ops[0]] + ops[1..];
      StepClock(cfg, st, ops[0]);
      var next, before := Step(cfg, st, ops[0]), Find(st, id, s);
      StepAnswers(cfg, st, m, ops[0]);
      StepSnapshot(cfg, st, m, ops[0], id, s);
      if Find(next, id, s) == before {
        RunSnapshotIff(cfg, next, StepModel(m, st, ops[0]), ops[1..], id, s);
      } else {
        GoneForGood(cfg, st, m, ops, id, s);
      }
    }
  }

  lemma GoneForGood(cfg: Config, st: State, m: Model, ops: seq<Op>, id: DocumentId, s: DocumentId)
    requires Inv(cfg, st) && Answers(st, m) && ops != [] && RunPlaced(cfg, st, ops)
    requires s in st.snapshots && forall op :: op in ops ==> LeavesOpen(op, s)
    requires StepOk(cfg, st, ops[0]) && Find(st, id, s).Some?
    requires st.clock + Ticks(ops[0]) <= MAX_ID + 1 && Find(Step(cfg, st, ops[0]), id, s) != Find(st, id, s)
    ensures Find(Run(cfg, st, ops), id, s) != Find(st, id, s)
  {
    hide Inv, Answers, Step, StepModel, StepOk, Find, Held, Visible;
    var op, next, b := ops[0], Step(cfg, st, ops[0]), Find(st, id, s).value;
    assert ops == [op] + ops[1..];
    forall o | o in ops[1..] ensures !o.Reopen? { assert LeavesOpen(o, s); }
    NotShownIsGone(cfg, st, m, op, id, s);
    StepAnswers(cfg, st, m, op);
    StepTime(cfg, st, m, op);
    GoneStays(cfg, next, StepModel(m, st, op), ops[1..], b);
    RunAnswers(cfg, st, m, ops);
    LookupIsView(cfg, Run(cfg, st, ops), id, s);
  }
}
