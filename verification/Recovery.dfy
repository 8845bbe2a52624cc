/** Restart and crashes: what the log and the table files bring back
    (crates/ingodb-lsm/src/lib.rs:230-290, 543-592). */
module Recovery {
  import opened Prelude
  import opened Bytes
  import opened Blobs
  import opened Sorting
  import opened Views
  import opened Tables
  import opened Lsm
  import opened Refinement
  import opened Codec
  import opened Wal

  /** What a restart would read back from the log file. */
  ghost function Recovered(cfg: Config, st: State): seq<Blob> { RecoverFrom(cfg.env, LogFile(cfg.env, st), 0) }

  /** The log file is the logged records and nothing else, and each has a length that fits. */
  ghost predicate CleanLog(cfg: Config, st: State) { st.torn == [] && AllLoggable(cfg.env, st.log) }

  /** Everything in the memtable that no table holds is in a clean log. */
  ghost predicate AllLogged(cfg: Config, st: State) {
    CleanLog(cfg, st) && forall b :: b in st.mem ==> b in st.log || b in AllEntries(st.tables)
  }

  /** A clean log is read back whole. */
  lemma CleanRecovers(cfg: Config, st: State)
    requires CleanLog(cfg, st)
    ensures Recovered(cfg, st) == st.log
  {
    assert [] + LogBytes(cfg.env, st.log) == LogBytes(cfg.env, st.log);
    RecoverWhole(cfg.env, st.log);
  }

  /** Opening an empty log, or one that gave a record, starts a clean one: whatever is logged from then on is read
      back whole. Otherwise the bytes stay in front of it. */
  lemma OpenStartsClean(cfg: Config, file: Bytes, files: seq<Table>, clock: nat, blobs: seq<Blob>)
    requires file == [] || RecoverFrom(cfg.env, file, 0) != []
    ensures var st := Open(cfg, file, files, clock);
            st.torn == [] && (AllLoggable(cfg.env, blobs) ==> Recovered(cfg, st.(log := blobs)) == blobs)
  {
    hide RecoverFrom, MemInsertAll, SortTables, AllLoggable;
    NothingInNothing(cfg.env);
    if AllLoggable(cfg.env, blobs) {
      CleanRecovers(cfg, Open(cfg, file, files, clock).(log := blobs));
    }
  }

  lemma NothingInNothing(env: Env)
    ensures RecoverFrom(env, [], 0) == []
  {
  }

  lemma {:induction false} MemInsertAllMembers(mem: seq<Blob>, bs: seq<Blob>)
    requires KeyStrict(mem) && Coherent(mem + bs)
    ensures KeyStrict(MemInsertAll(mem, bs))
    ensures forall x :: x in MemInsertAll(mem, bs) <==> x in mem || x in bs
    decreases bs
  {
    if bs != [] {
      var next := MemInsert(mem, bs[0]);
      MemInsertStrict(mem, bs[0]);
      assert bs == [bs[0]] + bs[1..];
      forall x ensures x in next <==> x == bs[0] || x in mem {
        MemInsertMembers(mem, bs[0], x);
        assert x in mem ==> x in mem + bs && bs[0] in mem + bs;
      }
      assert forall x :: x in next + bs[1..] ==> x in mem + bs;
      MemInsertAllMembers(next, bs[1..]);
    }
  }

  /** What `open` needs of a log and table files that belong together. */
  ghost predicate Openable(cfg: Config, log: seq<Blob>, files: seq<Table>, clock: nat) {
    && WellFormed(files) && Ordered(cfg.ucs, files)
    && (forall t :: t in files ==> ReadBefore(log, t.entries))
    && Coherent(log + AllEntries(files))
    && clock <= MAX_ID + 1 && forall b :: b in log + AllEntries(files) ==> b.version < clock
  }

  /** Opening gives a good state that holds the logged and the stored blobs. */
  lemma OpenInv(cfg: Config, log: seq<Blob>, torn: Bytes, files: seq<Table>, clock: nat)
    requires Openable(cfg, log, files, clock)
    ensures var st := Opened(cfg, log, torn, files, clock);
            Inv(cfg, st) && forall b :: b in Held(st) <==> b in log || b in AllEntries(files)
  {
    hide Sorted, WellFormed, Ordered, ReadBefore, AllEntries, MemInsertAll;
    var st := Opened(cfg, log, torn, files, clock);
    forall a | a in log ensures a in log + AllEntries(files) {}
    MemInsertAllMembers([], log);
    SortTablesSame(cfg.ucs, files);
    OrderedSame(cfg.ucs, files, st.tables);
    forall t | t in st.tables ensures ReadBefore(st.mem, t.entries) { SameBefore(log, st.mem, t.entries); }
    forall b ensures b in AllEntries(st.tables) <==> b in AllEntries(files) {
      InAllEntries(files, b);
      InAllEntries(st.tables, b);
    }
  }

  lemma LogBefore(cfg: Config, st: State, t: Table)
    requires Inv(cfg, st) && t in st.tables
    ensures ReadBefore(st.log, t.entries)
  {
    hide Sorted, WellFormed, Ordered;
    assert ReadBefore(st.mem, t.entries);
  }

  lemma LogOpenable(cfg: Config, st: State, recovered: seq<Blob>)
    requires Inv(cfg, st) && (recovered == st.log || recovered == [])
    ensures Openable(cfg, recovered, st.tables, st.clock)
  {
    hide Sorted, WellFormed, Ordered, ReadBefore, AllEntries;
    forall t | t in st.tables ensures ReadBefore(recovered, t.entries) {
      LogBefore(cfg, st, t);
      NothingBefore(t.entries);
    }
    forall b | b in recovered + AllEntries(st.tables) ensures b in Held(st) {}
  }

  /** The two outcomes that do not depend on a checksum collision: the log is read back whole, or not at all. */
  ghost predicate WholeOrNothing(cfg: Config, st: State) { Recovered(cfg, st) == st.log || Recovered(cfg, st) == [] }

  lemma RestartInv(cfg: Config, st: State)
    requires Inv(cfg, st) && WholeOrNothing(cfg, st)
    ensures Inv(cfg, Restart(cfg, st))
    ensures forall b :: b in Held(Restart(cfg, st)) <==> b in Recovered(cfg, st) || b in AllEntries(st.tables)
  {
    hide Inv, RecoverFrom, LogFile, Openable;
    var recovered := Recovered(cfg, st);
    LogOpenable(cfg, st, recovered);
    OpenInv(cfg, recovered, if recovered == [] then LogFile(cfg.env, st) else [], st.tables, st.clock);
  }

  ghost predicate SameViews(st: State, after: State) {
    forall id, s :: Find(after, id, s) == Find(st, id, s)
  }

  /** A restart keeps every read at every version exactly when each memtable entry is read back or in a table. */
  lemma RestartKeepsViewsIff(cfg: Config, st: State)
    requires Inv(cfg, st) && WholeOrNothing(cfg, st)
    ensures SameViews(st, Restart(cfg, st)) <==>
            forall b :: b in st.mem ==> b in Recovered(cfg, st) || b in AllEntries(st.tables)
  {
    hide Inv, Restart, FirstMatch, Visible, Recovered, AllEntries, Find;
    var after := Restart(cfg, st);
    RestartInv(cfg, st);
    HeldCoherent(cfg, st);
    LogWithin(cfg, st);
    if forall b :: b in st.mem ==> b in Recovered(cfg, st) || b in AllEntries(st.tables) {
      forall id, s ensures Find(after, id, s) == Find(st, id, s) {
        LookupIsView(cfg, st, id, s);
        LookupIsView(cfg, after, id, s);
        SameEntriesSameView(Held(st), Held(after), id, s);
      }
    }
    if SameViews(st, after) {
      forall b | b in st.mem ensures b in Recovered(cfg, st) || b in AllEntries(st.tables) {
        LookupIsView(cfg, st, b.id, b.version);
        LookupIsView(cfg, after, b.id, b.version);
        VisibleUnique(Held(st), b.id, b.version, b);
        assert Find(after, b.id, b.version) == Find(st, b.id, b.version);
      }
    }
  }

  /** Behind a torn first record whose missing part they fit into, logged writes are all lost: a restart keeps every
      read exactly when the memtable holds nothing that is not in a table. */
  lemma RestartBehindTornRecord(cfg: Config, st: State, b: Blob, n: nat)
    requires Inv(cfg, st) && Loggable(cfg.env, b) && 4 <= n && n + |LogBytes(cfg.env, st.log)| < |Record(cfg.env, b)|
    requires st.torn == Record(cfg.env, b)[..n]
    ensures Recovered(cfg, st) == [] && !AllLogged(cfg, st)
    ensures SameViews(st, Restart(cfg, st)) <==> forall x :: x in st.mem ==> x in AllEntries(st.tables)
  {
    hide Inv, Restart, SameViews, Record, RecoverFrom, AllEntries;
    AppendBehindTornIff(cfg.env, b, n, st.log);
    RestartKeepsViewsIff(cfg, st);
  }

  lemma LogWithin(cfg: Config, st: State)
    requires Inv(cfg, st)
    ensures forall b :: b in st.log ==> b in st.mem
  {
  }

  /** `open` deletes the log it has replayed: restarting again before a flush forgets the replayed writes. */
  lemma SecondRestartForgets(cfg: Config, st: State, b: Blob)
    requires Inv(cfg, st) && CleanLog(cfg, st) && b in st.log && b !in AllEntries(st.tables)
    ensures Find(Restart(cfg, st), b.id, b.version) == Some(b)
    ensures Find(Restart(cfg, Restart(cfg, st)), b.id, b.version) != Some(b)
  {
    hide Inv, FirstMatch, Visible, Openable, AllEntries, RecoverFrom;
    var once := Restart(cfg, st);
    var twice := Restart(cfg, once);
    CleanRecovers(cfg, st);
    RestartInv(cfg, st);
    assert AllLoggable(cfg.env, once.log);
    CleanRecovers(cfg, once);
    RestartInv(cfg, once);
    HeldCoherent(cfg, once);
    LookupIsView(cfg, once, b.id, b.version);
    LookupIsView(cfg, twice, b.id, b.version);
    VisibleUnique(Held(once), b.id, b.version, b);
    InAllEntries(st.tables, b);
    InAllEntries(once.tables, b);
    SortTablesSame(cfg.ucs, st.tables);
  }

  /** A crash between flush's table write and its log reset: the log is replayed over the new table. */
  lemma CrashInFlush(cfg: Config, st: State, id: DocumentId, s: DocumentId)
    requires Inv(cfg, st) && st.mem != [] && FlushOk(cfg, st) && WholeOrNothing(cfg, st)
    ensures var after := Open(cfg, LogFile(cfg.env, st), TableWritten(cfg, st.(mem := []), st.mem).tables, st.clock);
            Inv(cfg, after) && Find(after, id, s) == Find(st, id, s)
  {
    hide Inv, FirstMatch, Visible, FlushOk, RecoverFrom, LogFile, MemInsertAll, SortTables, AllEntries;
    var files := TableWritten(cfg, st.(mem := []), st.mem).tables;
    var file, recovered := LogFile(cfg.env, st), Recovered(cfg, st);
    var after := Open(cfg, file, files, st.clock);
    CrashOpenable(cfg, st, recovered);
    OpenInv(cfg, recovered, if recovered == [] then file else [], files, st.clock);
    FlushHolds(cfg, st);
    LogWithin(cfg, st);
    HeldCoherent(cfg, st);
    LookupIsView(cfg, st, id, s);
    LookupIsView(cfg, after, id, s);
    assert Held(Flushed(cfg, st)) == AllEntries(files) by { assert [] + AllEntries(files) == AllEntries(files); }
    SameEntriesSameView(Held(st), Held(after), id, s);
  }

  lemma CrashOpenable(cfg: Config, st: State, recovered: seq<Blob>)
    requires Inv(cfg, st) && st.mem != [] && FlushOk(cfg, st) && (recovered == st.log || recovered == [])
    ensures Openable(cfg, recovered, Flushed(cfg, st).tables, st.clock)
  {
    hide Sorted, WellFormed, Ordered, FlushOk, ReadBefore, AllEntries;
    var files := Flushed(cfg, st).tables;
    FlushInv(cfg, st);
    assert Held(Flushed(cfg, st)) == AllEntries(files) by { assert [] + AllEntries(files) == AllEntries(files); }
    SortTablesSame(cfg.ucs, [FlushedTable(cfg, st.nextPath, st.mem)] + st.tables);
    forall t | t in files ensures ReadBefore(recovered, t.entries) {
      NothingBefore(t.entries);
      if t in st.tables {
        LogBefore(cfg, st, t);
      } else {
        FlushedTableSame(cfg, st);
        LogBeforeMem(st, t);
      }
    }
    forall b | b in recovered + AllEntries(files) ensures b in Held(st) {}
  }

  lemma LogBeforeMem(st: State, t: Table)
    requires LogFits(st) && forall b :: b in t.entries <==> b in st.mem
    ensures ReadBefore(st.log, t.entries)
  {
  }

  /** A crash inside a batch of log appends: a store opened on the whole records answers as the map after that many
      of the writes, whatever bytes stay in the log. */
  lemma CrashInWrite(cfg: Config, st: State, m: Model, bs: seq<Blob>, k: nat, torn: Bytes)
    requires Inv(cfg, st) && AllLogged(cfg, st) && Answers(st, m)
    requires st.clock + |bs| <= MAX_ID + 1 && k <= |bs| && AllLoggable(cfg.env, Stamp(bs, st.clock))
    ensures var after := Opened(cfg, st.log + Stamp(bs, st.clock)[..k], torn, st.tables, st.clock + |bs|);
            Inv(cfg, after) && Answers(after, ApplyAll(m, Stamp(bs, st.clock)[..k]))
  {
    hide Inv, Answers, Opened, AllLogged, AllLoggable, RecoverFrom, WriteMany, Stamp, ApplyAll, LogFile;
    var mid, after := WriteMany(st, bs[..k]), ApplyAll(m, Stamp(bs, st.clock)[..k]);
    PartWritten(cfg, st, m, bs, k);
    LoggedClean(cfg, mid);
    CleanRecovers(cfg, mid);
    RestartAnswers(cfg, mid, after);
    var left := if mid.log == [] then LogFile(cfg.env, mid) else [];
    OpenClock(cfg, mid.log, left, torn, mid.tables, mid.clock, st.clock + |bs|, after);
  }

  /** The state after the first `k` writes of a batch. */
  lemma PartWritten(cfg: Config, st: State, m: Model, bs: seq<Blob>, k: nat)
    requires Inv(cfg, st) && AllLogged(cfg, st) && Answers(st, m)
    requires st.clock + |bs| <= MAX_ID + 1 && k <= |bs| && AllLoggable(cfg.env, Stamp(bs, st.clock))
    ensures var mid := WriteMany(st, bs[..k]);
            && Inv(cfg, mid) && AllLogged(cfg, mid) && Answers(mid, ApplyAll(m, Stamp(bs, st.clock)[..k]))
            && mid.log == st.log + Stamp(bs, st.clock)[..k] && mid.tables == st.tables && mid.clock == st.clock + k
  {
    hide Inv, Answers, AllLogged, AllLoggable;
    StampPrefix(bs, st.clock, k);
    PrefixLoggable(cfg.env, Stamp(bs, st.clock), k);
    WriteManyAnswers(cfg, st, bs[..k], m);
    WriteManyLogged(cfg, st, bs[..k]);
  }

  lemma PrefixLoggable(env: Env, blobs: seq<Blob>, k: nat)
    requires AllLoggable(env, blobs) && k <= |blobs|
    ensures AllLoggable(env, blobs[..k])
  {
    hide Loggable;
  }

  lemma JoinedLoggable(env: Env, a: seq<Blob>, b: seq<Blob>)
    requires AllLoggable(env, a) && AllLoggable(env, b)
    ensures AllLoggable(env, a + b)
  {
    hide Loggable;
  }

  /** Stamping changes no length: documents that fit the log fit it with any version. */
  lemma StampLoggable(env: Env, bs: seq<Blob>, clock: nat)
    requires AllLoggable(env, bs) && clock + |bs| <= MAX_ID + 1
    ensures AllLoggable(env, Stamp(bs, clock))
  {
    hide Loggable;
    var stamped := Stamp(bs, clock);
    forall b | b in stamped ensures Loggable(env, b) {
      var i :| 0 <= i < |stamped| && stamped[i] == b;
      assert bs[i] in bs;
      VersionLoggable(env, bs[i], clock + i);
    }
  }

  lemma VersionLoggable(env: Env, b: Blob, version: DocumentId)
    requires Loggable(env, b)
    ensures Loggable(env, b.(version := version))
  {
    hide SortedIndex, IndexBytes, ContentHash;
  }

  lemma {:induction false} StampPrefix(bs: seq<Blob>, clock: nat, k: nat)
    requires clock + |bs| <= MAX_ID + 1 && k <= |bs|
    ensures |Stamp(bs, clock)| == |bs| && Stamp(bs[..k], clock) == Stamp(bs, clock)[..k]
  {
    if bs != [] && k > 0 {
      StampPrefix(bs[1..], clock + 1, k - 1);
      assert bs[..k][1..] == bs[1..][..k - 1];
    } else if bs != [] {
      StampPrefix(bs[1..], clock + 1, 0);
    }
  }

  /** Writing adds to the log exactly what it adds to the memtable. */
  lemma {:induction false} WriteManyLogged(cfg: Config, st: State, bs: seq<Blob>)
    requires Inv(cfg, st) && st.clock + |bs| <= MAX_ID + 1 && AllLogged(cfg, st)
    requires AllLoggable(cfg.env, Stamp(bs, st.clock))
    ensures Inv(cfg, WriteMany(st, bs)) && AllLogged(cfg, WriteMany(st, bs))
    decreases bs
  {
    if bs == [] {
      WriteManyNone(st);
    } else {
      hide Inv, WriteMany, AllLogged, Loggable;
      var rest := Stamp(bs[1..], st.clock + 1);
      assert Stamp(bs, st.clock) == [bs[0].(version := st.clock)] + rest;
      WriteOneInv(cfg, st, bs[0]);
      WriteOneLogged(cfg, st, bs[0]);
      WriteManyLogged(cfg, WriteOne(st, bs[0]), bs[1..]);
      WriteManyStep(st, bs);
    }
  }

  lemma WriteOneLogged(cfg: Config, st: State, b: Blob)
    requires Inv(cfg, st) && st.clock <= MAX_ID && AllLogged(cfg, st) && Loggable(cfg.env, b.(version := st.clock))
    ensures AllLogged(cfg, WriteOne(st, b))
  {
    hide Loggable, AllEntries;
    var x := b.(version := st.clock);
    assert Stamp([b], st.clock) == [x];
    MemInsertOne(st.mem, x);
    forall y ensures y in MemInsert(st.mem, x) ==> y == x || y in st.mem { MemInsertMembers(st.mem, x, y); }
  }

  lemma RestartAnswers(cfg: Config, st: State, m: Model)
    requires Inv(cfg, st) && AllLogged(cfg, st) && Answers(st, m)
    ensures Inv(cfg, Restart(cfg, st)) && Answers(Restart(cfg, st), m)
  {
    hide Inv, Restart, FirstMatch, Recovered, AllEntries, AllLoggable;
    CleanRecovers(cfg, st);
    RestartInv(cfg, st);
    RestartKeepsViewsIff(cfg, st);
    forall id ensures Get(Restart(cfg, st), id) == Get(st, id) {
      assert Find(Restart(cfg, st), id, MAX_ID) == Find(st, id, MAX_ID);
    }
  }

  /** The clock only has to be past the versions in use, and the bytes left in the log do not matter to reads. */
  lemma OpenClock(cfg: Config, log: seq<Blob>, t: Bytes, torn: Bytes, files: seq<Table>, clock: nat, later: nat,
                  m: Model)
    requires Inv(cfg, Opened(cfg, log, t, files, clock)) && Answers(Opened(cfg, log, t, files, clock), m)
    requires clock <= later <= MAX_ID + 1
    ensures Inv(cfg, Opened(cfg, log, torn, files, later)) && Answers(Opened(cfg, log, torn, files, later), m)
  {
    hide Sorted, WellFormed, Ordered, ReadBefore;
    var a, b := Opened(cfg, log, t, files, clock), Opened(cfg, log, torn, files, later);
    assert Held(a) == Held(b) && Sources(a) == Sources(b);
    forall id ensures Get(b, id) == Get(a, id) {}
  }

  /** A crash at any byte while a batch is appended: opening the torn file gives a store that answers as the map after
      some prefix of the batch. Its log is clean unless the file gave no record, and then the torn bytes stay in it. */
  lemma CrashAtAnyByte(cfg: Config, st: State, m: Model, bs: seq<Blob>, n: nat) returns (k: nat)
    requires Inv(cfg, st) && AllLogged(cfg, st) && Answers(st, m)
    requires st.clock + |bs| <= MAX_ID + 1 && AllLoggable(cfg.env, Stamp(bs, st.clock))
    requires |LogBytes(cfg.env, st.log)| <= n <= |LogBytes(cfg.env, st.log + Stamp(bs, st.clock))|
    ensures k <= |bs|
    ensures var file := LogBytes(cfg.env, st.log + Stamp(bs, st.clock))[..n];
            var after := Open(cfg, file, st.tables, st.clock + |bs|);
            && Inv(cfg, after) && Answers(after, ApplyAll(m, Stamp(bs, st.clock)[..k]))
            && after.torn == if |st.log| + k == 0 then file else []
  {
    hide Inv, Answers, AllLogged, Opened, LogBytes, RecoverFrom, WholeRecords, AllLoggable;
    var stamped := Stamp(bs, st.clock);
    var whole, file := st.log + stamped, LogBytes(cfg.env, st.log + stamped)[..n];
    LoggedClean(cfg, st);
    JoinedLoggable(cfg.env, st.log, stamped);
    assert file[0..] == LogBytes(cfg.env, whole)[..|file| - 0];
    RecoverTruncated(cfg.env, file, 0, whole);
    WholeAtLeast(cfg.env, st.log, stamped, n);
    k := WholeRecords(cfg.env, whole, n) - |st.log|;
    var recovered := st.log + stamped[..k];
    assert whole[..|st.log| + k] == recovered;
    var torn := if recovered == [] then file else [];
    CrashInWrite(cfg, st, m, bs, k, torn);
    OpenedTorn(cfg, recovered, torn, st.tables, st.clock + |bs|);
  }

  lemma LoggedClean(cfg: Config, st: State)
    requires AllLogged(cfg, st)
    ensures CleanLog(cfg, st)
  {
  }

  lemma OpenedTorn(cfg: Config, recovered: seq<Blob>, torn: Bytes, files: seq<Table>, clock: nat)
    ensures Opened(cfg, recovered, torn, files, clock).torn == torn
  {
  }
}
