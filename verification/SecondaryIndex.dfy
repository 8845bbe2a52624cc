/** A secondary index just built from the tables, and the scan that walks it, against the full scan
    (crates/ingodb-lsm/src/secondary.rs:52-189, crates/ingodb-lsm/src/lib.rs:1076-1139). */
module SecondaryIndex {
  import opened Prelude
  import opened Bytes
  import opened Blobs
  import opened Sorting
  import opened Views
  import opened Merging
  import opened Tables
  import opened Lsm
  import opened Refinement
  import opened Codec
  import opened Queries
  import opened Keys
  import opened Scans

  /** Entries sort by the key of the indexed fields. */
  function EntryLe(env: Env, fields: seq<Bytes>): (Blob, Blob) -> bool {
    (a: Blob, b: Blob) => LexLe(DocumentKey(env, fields, a), DocumentKey(env, fields, b))
  }

  function Projection(fields: seq<Bytes>): Blob -> Blob { (b: Blob) => Project(b, fields) }

  /** The entries of a full-range index over the blobs of the tables, in file order. */
  function Build(env: Env, fields: seq<Bytes>, all: seq<Blob>): seq<Blob> {
    Sort(Map(Prelude.Filter(Newest(all), IsLive), Projection(fields)), EntryLe(env, fields))
  }

  /** The sorted iteration: stored entries and buffered ones merged by key. */
  function IterSorted(env: Env, fields: seq<Bytes>, stored: seq<Blob>, buffered: seq<Blob>): seq<Blob> {
    Sort(stored + buffered, EntryLe(env, fields))
  }

  /** Every indexed field of the document still has the entry's value. */
  predicate Current(fields: seq<Bytes>, b: Blob, entry: Blob) {
    forall f | f in fields :: OptionEq(GetField(b, f), GetField(entry, f))
  }

  /** The document an entry contributes, if it is live, current and matches. */
  function Hit(st: State, fields: seq<Bytes>, filter: Option<Filter>, entry: Blob): Option<Blob> {
    if entry.Deleted() then None
    else match Get(st, entry.id)
      case None => None
      case Some(b) =>
        if Current(fields, b, entry) && (filter.None? || Matches(filter.value, b)) then Some(b) else None
  }

  function Hits(st: State, fields: seq<Bytes>, filter: Option<Filter>, entries: seq<Blob>): seq<Blob> {
    if entries == [] then []
    else
      var rest := Hits(st, fields, filter, entries[1..]);
      match Hit(st, fields, filter, entries[0])
      case Some(b) => [b] + rest
      case None => rest
  }

  /** The loop tests its limit after a push, so it never returns fewer than one match. */
  function CutAfterPush(docs: seq<Blob>, limit: Option<nat>): seq<Blob> {
    match limit
    case None => docs
    case Some(n) => Truncate(docs, if n == 0 then 1 else n)
  }

  /** Walks the index with an empty memtable: look up, check, filter, stop at the limit. */
  method IndexScan(st: State, fields: seq<Bytes>, filter: Option<Filter>, limit: Option<nat>, entries: seq<Blob>)
    returns (results: seq<Blob>)
    ensures results == CutAfterPush(Hits(st, fields, filter, entries), limit)
  {
    hide Hit, Hits;
    results := [];
    assert entries[0..] == entries && [] + Hits(st, fields, filter, entries) == Hits(st, fields, filter, entries);
    for i := 0 to |entries|
      invariant results + Hits(st, fields, filter, entries[i..]) == Hits(st, fields, filter, entries)
      invariant limit.Some? ==> results == [] || |results| < limit.value
    {
      var hit := Hit(st, fields, filter, entries[i]);
      HitsStep(st, fields, filter, entries, i, results);
      if hit.None? {
        continue;
      }
      results := results + [hit.value];
      if limit.Some? && |results| >= limit.value {
        assert Hits(st, fields, filter, entries)[..|results|] == results;
        return;
      }
    }
    NoMoreHits(st, fields, filter, entries, results);
  }

  lemma HitsStep(st: State, fields: seq<Bytes>, filter: Option<Filter>, entries: seq<Blob>, i: nat, results: seq<Blob>)
    requires i < |entries|
    ensures var hit := Hit(st, fields, filter, entries[i]);
            results + Hits(st, fields, filter, entries[i..])
            == (if hit.Some? then results + [hit.value] else results) + Hits(st, fields, filter, entries[i + 1..])
  {
    hide Hit;
    assert entries[i..][1..] == entries[i + 1..];
  }

  lemma NoMoreHits(st: State, fields: seq<Bytes>, filter: Option<Filter>, entries: seq<Blob>, results: seq<Blob>)
    ensures results + Hits(st, fields, filter, entries[|entries|..]) == results
  {
  }

  // ---- the index answers like the full scan ----

  function Ascending(fields: seq<Bytes>): seq<SortField> {
    if fields == [] then [] else [SortField(fields[0], false)] + Ascending(fields[1..])
  }

  lemma {:induction false} AscendingCompare(fields: seq<Bytes>, a: Blob, b: Blob)
    ensures CompareSort(Ascending(fields), a, b) == CompareBy(fields, a, b)
  {
    if fields != [] {
      AscendingCompare(fields[1..], a, b);
    }
  }

  /** Any two of the documents have comparable keys, and no indexed value differs from itself. */
  ghost predicate Indexable(fields: seq<Bytes>, docs: seq<Blob>) {
    && (forall a, b :: a in docs && b in docs ==> KeysComparable(fields, a, b))
    && forall a, f :: a in docs && f in fields ==> OptionEq(GetField(a, f), GetField(a, f))
  }

  lemma {:induction false} ProjectedKey(env: Env, all: seq<Bytes>, fields: seq<Bytes>, b: Blob)
    requires forall f :: f in fields ==> f in all
    ensures DocumentKey(env, fields, Project(b, all)) == DocumentKey(env, fields, b)
  {
    if fields != [] {
      ProjectGetField(b, all, fields[0]);
      ProjectedKey(env, all, fields[1..], b);
    }
  }

  lemma EntryLeTotal(env: Env, fields: seq<Bytes>)
    ensures TotalPreorder(EntryLe(env, fields))
  {
    var le := EntryLe(env, fields);
    forall x, y ensures le(x, y) || le(y, x) { LexFlip(DocumentKey(env, fields, x), DocumentKey(env, fields, y)); }
    forall x, y, z | le(x, y) && le(y, z) ensures le(x, z) {
      LexTransitive(DocumentKey(env, fields, x), DocumentKey(env, fields, y), DocumentKey(env, fields, z));
    }
  }

  /** The index lists the documents in key order, ties in id order, each projected. */
  lemma BuildOrder(env: Env, fields: seq<Bytes>, all: seq<Blob>)
    ensures var docs := Prelude.Filter(Newest(all), IsLive);
            && Build(env, fields, all) == Map(Sort(docs, EntryLe(env, fields)), Projection(fields))
            && IterSorted(env, fields, Build(env, fields, all), []) == Build(env, fields, all)
  {
    var docs, le := Prelude.Filter(Newest(all), IsLive), EntryLe(env, fields);
    forall x, y | x in docs && y in docs ensures le(x, y) == le(Project(x, fields), Project(y, fields)) {
      ProjectedKey(env, fields, fields, x);
      ProjectedKey(env, fields, fields, y);
    }
    SortMap(docs, Projection(fields), le, le);
    EntryLeTotal(env, fields);
    SortSorted(Map(docs, Projection(fields)), le);
    var b := Build(env, fields, all);
    assert b + [] == b;
    SortFixed(b, le);
  }

  /** On indexable documents the key order is the query's sort order. */
  lemma SameOrder(env: Env, fields: seq<Bytes>, docs: seq<Blob>)
    requires Indexable(fields, docs)
    ensures Sort(docs, SortLe(Ascending(fields))) == Sort(docs, EntryLe(env, fields))
  {
    hide DocumentKey, CompareBy, CompareSort, Lex;
    forall x, y | x in docs && y in docs ensures SortLe(Ascending(fields))(x, y) == EntryLe(env, fields)(x, y) {
      DocumentKeyOrder(env, fields, x, y);
      AscendingCompare(fields, x, y);
      LexLeIs(DocumentKey(env, fields, x), DocumentKey(env, fields, y));
    }
    SortAgrees(docs, SortLe(Ascending(fields)), EntryLe(env, fields));
  }

  lemma LexLeIs(x: Bytes, y: Bytes)
    ensures LexLe(x, y) <==> Lex(x, y) != Greater
  {
  }

  /** A fresh entry leads back to its document. */
  lemma FreshHit(st: State, fields: seq<Bytes>, filter: Option<Filter>, b: Blob)
    requires Get(st, b.id) == Some(b) && !b.Deleted()
    requires Matching(filter)(b) ==> forall f :: f in fields ==> OptionEq(GetField(b, f), GetField(b, f))
    ensures Hit(st, fields, filter, Project(b, fields)) == if Matching(filter)(b) then Some(b) else None
  {
    hide OptionEq, GetField, Matches;
    ProjectGetField(b, fields, []);
    forall f | f in fields
      ensures Matching(filter)(b) ==> OptionEq(GetField(b, f), GetField(Project(b, fields), f))
    {
      ProjectGetField(b, fields, f);
    }
  }

  lemma {:induction false} FreshHits(st: State, fields: seq<Bytes>, filter: Option<Filter>, docs: seq<Blob>)
    requires forall b :: b in docs ==> Get(st, b.id) == Some(b) && !b.Deleted()
    requires forall a, f :: a in docs && Matching(filter)(a) && f in fields ==> OptionEq(GetField(a, f), GetField(a, f))
    ensures Hits(st, fields, filter, Map(docs, Projection(fields))) == Prelude.Filter(docs, Matching(filter))
  {
    hide Hit, Get, OptionEq, GetField, Matches;
    if docs != [] {
      assert Map(docs, Projection(fields))[1..] == Map(docs[1..], Projection(fields));
      FreshHit(st, fields, filter, docs[0]);
      FreshHits(st, fields, filter, docs[1..]);
    }
  }

  /** A scan of a full-range index built on the current tables, with nothing buffered, returns the sequence of the
      sorted full scan, ties included, exactly when the limit is not zero or nothing matches: a zero limit lets one
      document through. */
  lemma IndexScanIsFullScan(cfg: Config, env: Env, st: State, fields: seq<Bytes>, filter: Option<Filter>,
                            limit: Option<nat>)
    requires Inv(cfg, st) && st.mem == []
    requires Indexable(fields, Prelude.Filter(LiveDocs(Gathered(st), MAX_ID), Matching(filter)))
    ensures var entries := IterSorted(env, fields, Build(env, fields, AllEntries(st.tables)), []);
            var viaIndex := CutAfterPush(Hits(st, fields, filter, entries), limit);
            var full := FullScan(Gathered(st), filter, Some(Ascending(fields)), None, limit, MAX_ID);
            viaIndex == full <==>
              limit != Some(0) || Prelude.Filter(LiveDocs(Gathered(st), MAX_ID), Matching(filter)) == []
  {
    hide Inv, LiveDocs, Hits, Build, IterSorted, Indexable, SortLe, EntryLe, Matching, Ascending, ProjectFields,
         Gathered, AllEntries;
    var docs, le := LiveDocs(Gathered(st), MAX_ID), EntryLe(env, fields);
    var found := Prelude.Filter(docs, Matching(filter));
    IndexEntries(cfg, env, st, fields, filter);
    SameOrder(env, fields, found);
    var sorted := Sort(found, le);
    SortMultiset(found, le);
    NothingProjected(Limited(sorted, limit));
  }

  lemma NothingProjected(docs: seq<Blob>)
    ensures Map(docs, ProjectFields(None)) == docs
  {
    MapSame(docs, ProjectFields(None));
  }

  /** The matches an index walk meets, in order: the matching documents sorted by key. */
  lemma IndexEntries(cfg: Config, env: Env, st: State, fields: seq<Bytes>, filter: Option<Filter>)
    requires Inv(cfg, st) && st.mem == []
    requires Indexable(fields, Prelude.Filter(LiveDocs(Gathered(st), MAX_ID), Matching(filter)))
    ensures var entries := IterSorted(env, fields, Build(env, fields, AllEntries(st.tables)), []);
            Hits(st, fields, filter, entries)
            == Sort(Prelude.Filter(LiveDocs(Gathered(st), MAX_ID), Matching(filter)), EntryLe(env, fields))
  {
    hide Inv, Hits, Build, IterSorted, EntryLe, OptionEq, GetField, Get, Newest, Visible;
    var docs, le := LiveDocs(Gathered(st), MAX_ID), EntryLe(env, fields);
    TableDocs(cfg, st);
    BuildOrder(env, fields, AllEntries(st.tables));
    var sorted := Sort(docs, le);
    forall b | b in sorted ensures b in docs { InSort(docs, le, b); }
    forall b | b in docs && Matching(filter)(b) ensures b in Prelude.Filter(docs, Matching(filter)) {
      InFilter(docs, Matching(filter), b);
    }
    DocsRead(cfg, st);
    FreshHits(st, fields, filter, sorted);
    EntryLeTotal(env, fields);
    SortFilter(docs, le, Matching(filter));
  }

  lemma TableDocs(cfg: Config, st: State)
    requires Inv(cfg, st) && st.mem == []
    ensures LiveDocs(Gathered(st), MAX_ID) == Prelude.Filter(Newest(AllEntries(st.tables)), IsLive)
  {
    var all := AllEntries(st.tables);
    GatheredIsHeld(cfg, st);
    assert [] + all == all;
    FilterAll(all, AtMost(MAX_ID));
  }

  /** Each listed document is what a lookup of its id returns. */
  lemma DocsRead(cfg: Config, st: State)
    requires Inv(cfg, st)
    ensures forall b :: b in LiveDocs(Gathered(st), MAX_ID) ==> Get(st, b.id) == Some(b) && !b.Deleted()
  {
    hide Inv, LiveDocs, Visible, Find;
    GatheredIsHeld(cfg, st);
    LiveDocsAreViews(Held(st), MAX_ID);
    forall b | b in LiveDocs(Gathered(st), MAX_ID) ensures Get(st, b.id) == Some(b) && !b.Deleted() {
      LookupIsView(cfg, st, b.id, MAX_ID);
    }
  }
}
