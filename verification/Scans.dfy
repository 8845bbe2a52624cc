/** The full scan: merge every source, keep the newest visible version of each document, filter, sort,
    cut and project (crates/ingodb-lsm/src/lib.rs:1369-1521). */
module Scans {
  import opened Prelude
  import opened Bytes
  import opened Blobs
  import opened Sorting
  import opened Views
  import opened Merging
  import opened Tables
  import opened Lsm
  import opened Refinement
  import opened Queries

  datatype SortField = SortField(field: Bytes, descending: bool)

  function CompareSort(sort: seq<SortField>, a: Blob, b: Blob): Ordering {
    if sort == [] then Equal
    else
      var o := CompareOptions(GetField(a, sort[0].field), GetField(b, sort[0].field));
      var directed :=
        if !sort[0].descending then o
        else match o case Less => Greater case Equal => Equal case Greater => Less;
      if directed != Equal then directed else CompareSort(sort[1..], a, b)
  }

  function SortLe(sort: seq<SortField>): (Blob, Blob) -> bool {
    (a: Blob, b: Blob) => CompareSort(sort, a, b) != Greater
  }

  function AtMost(s: DocumentId): Blob -> bool { (b: Blob) => b.version <= s }

  function Matching(filter: Option<Filter>): Blob -> bool {
    (b: Blob) => filter.None? || Matches(filter.value, b)
  }

  /** The documents a snapshot shows, one for each id, in id order. */
  function LiveDocs(all: seq<Blob>, s: DocumentId): seq<Blob> {
    Prelude.Filter(Newest(Prelude.Filter(all, AtMost(s))), IsLive)
  }

  function Limited(docs: seq<Blob>, limit: Option<nat>): seq<Blob> {
    if limit.Some? then Truncate(docs, limit.value) else docs
  }

  function ProjectFields(fields: Option<seq<Bytes>>): Blob -> Blob {
    (b: Blob) => if fields.Some? then Project(b, fields.value) else b
  }

  function FullScan(all: seq<Blob>, filter: Option<Filter>, sort: Option<seq<SortField>>, project: Option<seq<Bytes>>,
                    limit: Option<nat>, s: DocumentId): seq<Blob>
  {
    var found := Prelude.Filter(LiveDocs(all, s), Matching(filter));
    var sorted := if sort.Some? then Sort(found, SortLe(sort.value)) else found;
    Map(Limited(sorted, limit), ProjectFields(project))
  }

  /** Everything the engine holds, in the order a scan gathers it. */
  function Gathered(st: State): seq<Blob> { st.mem + Flatten(st.queued) + AllEntries(st.tables) }

  /** The scan as the program runs it over the gathered blobs. */
  method Scan(all: seq<Blob>, filter: Option<Filter>, sort: Option<seq<SortField>>, project: Option<seq<Bytes>>,
              limit: Option<nat>, s: DocumentId) returns (results: seq<Blob>)
    ensures results == FullScan(all, filter, sort, project, limit, s)
  {
    hide CompareSort, Matches, Newest, Sort, Truncate, Map;
    var merged := Newest(Prelude.Filter(all, AtMost(s)));
    results := SelectLive(merged, filter);
    if sort.Some? {
      results := Sort(results, SortLe(sort.value));
    }
    if limit.Some? {
      results := Truncate(results, limit.value);
    }
    results := Map(results, ProjectFields(project));
  }

  /** Skips tombstones and documents the filter rejects. */
  method SelectLive(merged: seq<Blob>, filter: Option<Filter>) returns (results: seq<Blob>)
    ensures results == Prelude.Filter(Prelude.Filter(merged, IsLive), Matching(filter))
  {
    hide Matches;
    results := [];
    for i := 0 to |merged|
      invariant results + Selected(merged[i..], filter) == Selected(merged, filter)
    {
      SelectStep(merged, i, filter, results);
      if merged[i].Deleted() {
        continue;
      }
      if filter.Some? && !Matches(filter.value, merged[i]) {
        continue;
      }
      results := results + [merged[i]];
    }
    assert merged[|merged|..] == [] && results + [] == results;
    SelectedIsFilter(merged, filter);
  }

  lemma SelectStep(merged: seq<Blob>, i: nat, filter: Option<Filter>, results: seq<Blob>)
    requires i < |merged|
    ensures results + Selected(merged[i..], filter) ==
            (if !merged[i].Deleted() && (filter.None? || Matches(filter.value, merged[i])) then results + [merged[i]]
             else results)
            + Selected(merged[i + 1..], filter)
  {
    hide Matches;
    assert merged[i..][1..] == merged[i + 1..];
  }

  /** What one pass over the merged list keeps. */
  ghost function Selected(merged: seq<Blob>, filter: Option<Filter>): seq<Blob> {
    if merged == [] then []
    else (if !merged[0].Deleted() && (filter.None? || Matches(filter.value, merged[0])) then [merged[0]] else [])
         + Selected(merged[1..], filter)
  }

  lemma {:induction false} SelectedIsFilter(merged: seq<Blob>, filter: Option<Filter>)
    ensures Selected(merged, filter) == Prelude.Filter(Prelude.Filter(merged, IsLive), Matching(filter))
  {
    if merged != [] {
      SelectedIsFilter(merged[1..], filter);
      var rest := Prelude.Filter(merged[1..], IsLive);
      if IsLive(merged[0]) {
        assert ([merged[0]] + rest)[1..] == rest;
      }
    }
  }

  // ---- the two read paths ----

  function WithId(docs: seq<Blob>, id: DocumentId): Option<Blob> {
    if docs == [] then None else if docs[0].id == id then Some(docs[0]) else WithId(docs[1..], id)
  }

  lemma {:induction false} WithIdMember(docs: seq<Blob>, id: DocumentId)
    ensures WithId(docs, id).Some? ==> WithId(docs, id).value in docs && WithId(docs, id).value.id == id
    ensures WithId(docs, id).None? ==> forall b :: b in docs ==> b.id != id
  {
    if docs != [] {
      WithIdMember(docs[1..], id);
      assert docs == [docs[0]] + docs[1..];
    }
  }

  /** The scan's documents are exactly the live views, one for each id, in id order. */
  lemma LiveDocsAreViews(all: seq<Blob>, s: DocumentId)
    requires Coherent(all)
    ensures StrictIds(LiveDocs(all, s))
    ensures forall b :: b in LiveDocs(all, s) <==> Visible(all, b.id, s) == Some(b) && !b.Deleted()
  {
    var seen := Prelude.Filter(all, AtMost(s));
    forall b ensures b in seen <==> b in all && b.version <= s { InFilter(all, AtMost(s), b); }
    NewestIsView(seen);
    StrictFilter(Newest(seen), IsLive);
    forall b ensures b in LiveDocs(all, s) <==> Visible(all, b.id, s) == Some(b) && !b.Deleted() {
      InFilter(Newest(seen), IsLive, b);
      SeenView(all, seen, b.id, s);
    }
  }

  lemma SeenView(all: seq<Blob>, seen: seq<Blob>, id: DocumentId, s: DocumentId)
    requires Coherent(all) && forall b :: b in seen <==> b in all && b.version <= s
    ensures Visible(seen, id, MAX_ID) == Visible(all, id, s)
  {
    var r := Visible(all, id, s);
    if r.Some? {
      VisibleUnique(seen, id, MAX_ID, r.value);
    }
  }

  lemma {:induction false} StrictFilter(s: seq<Blob>, p: Blob -> bool)
    requires StrictIds(s)
    ensures StrictIds(Prelude.Filter(s, p))
  {
    if s != [] {
      StrictFilter(s[1..], p);
      var f := Prelude.Filter(s[1..], p);
      forall j | 0 <= j < |f| ensures s[0].id < f[j].id {
        InFilter(s[1..], p, f[j]);
        assert f[j] in s[1..];
        var k :| 0 <= k < |s[1..]| && s[1..][k] == f[j];
        assert s[k + 1] == f[j];
      }
    }
  }

  lemma GatheredIsHeld(cfg: Config, st: State)
    requires Inv(cfg, st)
    ensures Gathered(st) == Held(st) && Coherent(Held(st))
  {
    assert st.mem + [] == st.mem;
  }

  /** In every reachable state, at every snapshot, a point lookup gives the document that an unfiltered scan
      lists for the id, or both have none. */
  lemma ReadPathsAgree(cfg: Config, st: State, id: DocumentId, s: DocumentId)
    requires Inv(cfg, st)
    ensures GetAt(st, id, s) == WithId(FullScan(Gathered(st), None, None, None, None, s), id)
  {
    hide Inv, FirstMatch, Visible, LiveDocs;
    GatheredIsHeld(cfg, st);
    var all := Held(st);
    var docs := LiveDocs(all, s);
    FilterAll(docs, Matching(None));
    MapSame(docs, ProjectFields(None));
    LookupIsView(cfg, st, id, s);
    LiveDocsAreViews(all, s);
    WithIdMember(docs, id);
    GetAtIs(st, id, s);
    var v := Visible(all, id, s);
    ViewHasId(all, id, s);
    if v.Some? && !v.value.Deleted() {
      assert v.value in docs;
    }
  }

  lemma GetAtIs(st: State, id: DocumentId, s: DocumentId)
    ensures GetAt(st, id, s) == Live(Find(st, id, s))
  {
  }

  lemma ViewHasId(all: seq<Blob>, id: DocumentId, s: DocumentId)
    ensures Visible(all, id, s).Some? ==> Visible(all, id, s).value.id == id
  {
  }

  lemma {:induction false} MapSame<T>(s: seq<T>, f: T -> T)
    requires forall x :: x in s ==> f(x) == x
    ensures Map(s, f) == s
  {
    forall i | 0 <= i < |s| ensures Map(s, f)[i] == s[i] { assert s[i] in s; }
  }
}
