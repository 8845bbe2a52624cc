/** What a scan returns, without its comparator: which documents, in which order, how many
    (crates/ingodb-lsm/src/lib.rs:1444-1526). */
module SortedScans {
  import opened Prelude
  import opened Bytes
  import opened Values
  import opened Blobs
  import opened Numbers
  import opened Sorting
  import opened Views
  import opened Merging
  import opened Queries
  import opened QueryMeaning
  import opened Scans

  /** On this sort field `a` comes strictly first: the smaller value, or the larger one when descending; a missing value
      comes last, or first when descending. */
  ghost predicate Ahead(f: SortField, a: Blob, b: Blob) {
    var x, y := GetField(a, f.field), GetField(b, f.field);
    if f.descending then y.Some? && (x.None? || Below(y.value, x.value))
    else x.Some? && (y.None? || Below(x.value, y.value))
  }

  ghost predicate Tied(f: SortField, a: Blob, b: Blob) { !Ahead(f, a, b) && !Ahead(f, b, a) }

  /** The first field on which they are not tied puts `a` first. */
  ghost predicate Before(sort: seq<SortField>, a: Blob, b: Blob) {
    exists k :: 0 <= k < |sort| && Ahead(sort[k], a, b) && TiedUpTo(sort, k, a, b)
  }

  ghost predicate TiedUpTo(sort: seq<SortField>, k: int, a: Blob, b: Blob) {
    forall m :: 0 <= m < k && m < |sort| ==> Tied(sort[m], a, b)
  }

  lemma OptionsMeaning(f: SortField, a: Blob, b: Blob)
    ensures var o := CompareOptions(GetField(a, f.field), GetField(b, f.field));
            && (o == Equal <==> Tied(f, a, b))
            && (o == (if f.descending then Greater else Less) <==> Ahead(f, a, b))
            && (o == (if f.descending then Less else Greater) <==> Ahead(f, b, a))
  {
    hide CompareValues, Below, GetField;
    var x, y := GetField(a, f.field), GetField(b, f.field);
    if x.Some? && y.Some? {
      CompareMeaning(x.value, y.value);
    }
  }

  /** The comparator of a query puts first what the first deciding field puts first. */
  lemma {:induction false} CompareSortMeaning(sort: seq<SortField>, a: Blob, b: Blob)
    ensures CompareSort(sort, a, b) == Less <==> Before(sort, a, b)
    ensures CompareSort(sort, a, b) == Greater <==> Before(sort, b, a)
    ensures CompareSort(sort, a, b) == Equal <==> TiedUpTo(sort, |sort|, a, b)
  {
    hide CompareOptions, Ahead;
    if sort != [] {
      OptionsMeaning(sort[0], a, b);
      CompareSortMeaning(sort[1..], a, b);
      BeforeStep(sort, a, b);
      BeforeStep(sort, b, a);
      NotBoth(sort[0], a, b);
    }
  }

  lemma NotBoth(f: SortField, a: Blob, b: Blob)
    ensures !(Ahead(f, a, b) && Ahead(f, b, a))
  {
    hide GetField, Below;
    var x, y := GetField(a, f.field), GetField(b, f.field);
    if x.Some? && y.Some? {
      CompareMeaning(x.value, y.value);
    }
  }

  lemma BeforeStep(sort: seq<SortField>, a: Blob, b: Blob)
    requires sort != []
    ensures Before(sort, a, b) <==> Ahead(sort[0], a, b) || (Tied(sort[0], a, b) && Before(sort[1..], a, b))
    ensures TiedUpTo(sort, |sort|, a, b) <==> Tied(sort[0], a, b) && TiedUpTo(sort[1..], |sort| - 1, a, b)
  {
    hide Ahead, Tied;
    if Before(sort, a, b) {
      var k :| 0 <= k < |sort| && Ahead(sort[k], a, b) && TiedUpTo(sort, k, a, b);
      if k > 0 {
        assert sort[1..][k - 1] == sort[k] && TiedUpTo(sort[1..], k - 1, a, b);
      }
    }
    if Ahead(sort[0], a, b) {
      assert TiedUpTo(sort, 0, a, b);
    }
    if Tied(sort[0], a, b) && Before(sort[1..], a, b) {
      var k :| 0 <= k < |sort[1..]| && Ahead(sort[1..][k], a, b) && TiedUpTo(sort[1..], k, a, b);
      TiedMore(sort, k, a, b);
      assert sort[k + 1] == sort[1..][k];
    }
    if Tied(sort[0], a, b) && TiedUpTo(sort[1..], |sort| - 1, a, b) {
      TiedMore(sort, |sort| - 1, a, b);
    }
  }

  lemma TiedMore(sort: seq<SortField>, k: int, a: Blob, b: Blob)
    requires sort != [] && Tied(sort[0], a, b) && TiedUpTo(sort[1..], k, a, b)
    ensures TiedUpTo(sort, k + 1, a, b)
  {
    hide Tied;
    forall m | 0 <= m < k + 1 && m < |sort| ensures Tied(sort[m], a, b) {
      assert m > 0 ==> sort[m] == sort[1..][m - 1];
    }
  }

  function Flipped(sort: seq<SortField>): (r: seq<SortField>)
    ensures |r| == |sort| && forall i :: 0 <= i < |sort| ==> r[i] == SortField(sort[i].field, !sort[i].descending)
  {
    if sort == [] then [] else [SortField(sort[0].field, !sort[0].descending)] + Flipped(sort[1..])
  }

  /** Flipping all directions turns every order round and keeps every tie. */
  lemma FlipTurns(sort: seq<SortField>, a: Blob, b: Blob)
    ensures Before(Flipped(sort), a, b) <==> Before(sort, b, a)
    ensures CompareSort(Flipped(sort), a, b) == Less <==> CompareSort(sort, a, b) == Greater
    ensures CompareSort(Flipped(sort), a, b) == Equal <==> CompareSort(sort, a, b) == Equal
  {
    hide CompareSort, Below, GetField;
    var f := Flipped(sort);
    forall k | 0 <= k < |sort|
      ensures Ahead(f[k], a, b) <==> Ahead(sort[k], b, a)
      ensures Ahead(f[k], b, a) <==> Ahead(sort[k], a, b)
    {
    }
    forall k ensures TiedUpTo(f, k, a, b) <==> TiedUpTo(sort, k, a, b) {}
    forall k ensures TiedUpTo(sort, k, b, a) <==> TiedUpTo(sort, k, a, b) {}
    FlipBefore(sort, a, b);
    FlipBefore(sort, b, a);
    CompareSortMeaning(sort, a, b);
    CompareSortMeaning(f, a, b);
  }

  lemma FlipBefore(sort: seq<SortField>, a: Blob, b: Blob)
    ensures Before(Flipped(sort), a, b) <==> Before(sort, b, a)
  {
    hide Below, GetField;
    var f := Flipped(sort);
    if k :| 0 <= k < |f| && Ahead(f[k], a, b) && TiedUpTo(f, k, a, b) {
      assert Ahead(sort[k], b, a);
      forall m | 0 <= m < k && m < |sort| ensures Tied(sort[m], b, a) { assert Tied(f[m], a, b); }
    }
    if k :| 0 <= k < |sort| && Ahead(sort[k], b, a) && TiedUpTo(sort, k, b, a) {
      assert Ahead(f[k], a, b);
      forall m | 0 <= m < k && m < |f| ensures Tied(f[m], a, b) { assert Tied(sort[m], b, a); }
    }
  }

  // ---- documents that compare ----

  /** In each sort field the values of any two documents are of one kind, or one is missing. */
  ghost predicate Sortable(sort: seq<SortField>, docs: seq<Blob>) {
    forall a, b, k :: a in docs && b in docs && 0 <= k < |sort| ==> FitOn(sort[k], a, b)
  }

  ghost predicate FitOn(f: SortField, a: Blob, b: Blob) { Fit(GetField(a, f.field), GetField(b, f.field)) }

  ghost predicate Fit(x: Option<Value>, y: Option<Value>) { x.None? || y.None? || SameKind(x.value, y.value) }

  /** How two comparisons with a common middle combine. */
  ghost predicate Combines(ab: Ordering, bc: Ordering, ac: Ordering) {
    && (ab == Equal ==> ac == bc) && (bc == Equal ==> ac == ab)
    && (ab == Less && bc == Less ==> ac == Less)
    && (ab == Greater && bc == Greater ==> ac == Greater)
  }

  lemma ValuesCombine(a: Value, b: Value, c: Value)
    requires SameKind(a, b) && SameKind(b, c) && SameKind(a, c)
    ensures CompareValues(a, b).Some? && CompareValues(b, c).Some? && CompareValues(a, c).Some?
    ensures Combines(CompareValues(a, b).value, CompareValues(b, c).value, CompareValues(a, c).value)
  {
    hide Lex, Numeric, IsNaN;
    match (a, b, c)
    case (Text(x), Text(y), Text(z)) => LexCombines(x, y, z);
    case (Raw(x), Raw(y), Raw(z)) => LexCombines(x, y, z);
    case _ =>
  }

  lemma LexCombines(x: Bytes, y: Bytes, z: Bytes)
    ensures Combines(Lex(x, y), Lex(y, z), Lex(x, z))
  {
    hide Lex;
    LexEqual(x, y);
    LexEqual(y, z);
    LexEqual(x, z);
    LexFlip(x, y);
    LexFlip(y, z);
    LexFlip(x, z);
    LexFlip(z, x);
    LexFlip(z, y);
    LexFlip(y, x);
    if LexLe(x, y) && LexLe(y, z) { LexTransitive(x, y, z); }
    if LexLe(z, y) && LexLe(y, x) { LexTransitive(z, y, x); }
  }

  lemma OptionsCombine(a: Option<Value>, b: Option<Value>, c: Option<Value>)
    requires Fit(a, b) && Fit(b, c) && Fit(a, c)
    ensures Combines(CompareOptions(a, b), CompareOptions(b, c), CompareOptions(a, c))
  {
    hide CompareValues, SameKind;
    if a.Some? && b.Some? && c.Some? {
      ValuesCombine(a.value, b.value, c.value);
    }
  }

  lemma {:induction false} SortCombines(sort: seq<SortField>, a: Blob, b: Blob, c: Blob)
    requires Sortable(sort, [a, b, c])
    ensures Combines(CompareSort(sort, a, b), CompareSort(sort, b, c), CompareSort(sort, a, c))
  {
    hide CompareOptions, Fit, GetField;
    if sort != [] {
      var f := sort[0].field;
      var docs := [a, b, c];
      assert a in docs && b in docs && c in docs;
      assert FitOn(sort[0], a, b) && FitOn(sort[0], b, c) && FitOn(sort[0], a, c);
      OptionsCombine(GetField(a, f), GetField(b, f), GetField(c, f));
      forall x, y, k | x in docs && y in docs && 0 <= k < |sort[1..]|
        ensures FitOn(sort[1..][k], x, y)
      {
        assert sort[1..][k] == sort[k + 1];
      }
      SortCombines(sort[1..], a, b, c);
    }
  }

  /** The sort order on these documents, everything else behind them. */
  function Within(sort: seq<SortField>, docs: seq<Blob>): (Blob, Blob) -> bool {
    (x: Blob, y: Blob) => y !in docs || (x in docs && CompareSort(sort, x, y) != Greater)
  }

  lemma WithinIs(sort: seq<SortField>, docs: seq<Blob>, x: Blob, y: Blob)
    ensures Within(sort, docs)(x, y) <==> y !in docs || (x in docs && CompareSort(sort, x, y) != Greater)
  {
  }

  lemma WithinTotal(sort: seq<SortField>, docs: seq<Blob>)
    requires Sortable(sort, docs)
    ensures TotalPreorder(Within(sort, docs))
  {
    hide CompareSort, Sortable, Before, TiedUpTo;
    var le := Within(sort, docs);
    forall x, y ensures le(x, y) || le(y, x) {
      WithinIs(sort, docs, x, y);
      WithinIs(sort, docs, y, x);
      CompareSortMeaning(sort, x, y);
      CompareSortMeaning(sort, y, x);
    }
    forall x, y, z | le(x, y) && le(y, z) ensures le(x, z) {
      WithinIs(sort, docs, x, y);
      WithinIs(sort, docs, y, z);
      WithinIs(sort, docs, x, z);
      if z in docs {
        SubSortable(sort, docs, [x, y, z]);
        SortCombines(sort, x, y, z);
        CombinesLe(CompareSort(sort, x, y), CompareSort(sort, y, z), CompareSort(sort, x, z));
      }
    }
  }

  lemma CombinesLe(ab: Ordering, bc: Ordering, ac: Ordering)
    requires Combines(ab, bc, ac)
    ensures ab != Greater && bc != Greater ==> ac != Greater
  {
    match ab
    case Less =>
    case Equal =>
    case Greater =>
  }

  lemma SubSortable(sort: seq<SortField>, docs: seq<Blob>, part: seq<Blob>)
    requires Sortable(sort, docs) && forall b :: b in part ==> b in docs
    ensures Sortable(sort, part)
  {
    hide FitOn;
  }

  // ---- stability ----

  /** Of two that tie, the one with the smaller id comes first. */
  ghost predicate TiesById(s: seq<Blob>, le: (Blob, Blob) -> bool) {
    forall i, j :: 0 <= i < j < |s| && le(s[j], s[i]) ==> s[i].id < s[j].id
  }

  lemma TiesInFront(x: Blob, s: seq<Blob>, le: (Blob, Blob) -> bool)
    requires TiesById(s, le) && forall y :: y in s && le(y, x) ==> x.id < y.id
    ensures TiesById([x] + s, le)
  {
    var all := [x] + s;
    forall i, j | 0 <= i < j < |all| && le(all[j], all[i]) ensures all[i].id < all[j].id {
      assert all[j] == s[j - 1] && (i > 0 ==> all[i] == s[i - 1]);
    }
  }

  lemma TiesBehind(s: seq<Blob>, le: (Blob, Blob) -> bool)
    requires s != [] && TiesById(s, le)
    ensures TiesById(s[1..], le)
    ensures forall y :: y in s[1..] && le(y, s[0]) ==> s[0].id < y.id
  {
    var rest := s[1..];
    assert forall i :: 0 <= i < |rest| ==> rest[i] == s[i + 1];
  }

  lemma {:induction false} InsertTies(x: Blob, s: seq<Blob>, le: (Blob, Blob) -> bool)
    requires TiesById(s, le) && forall y :: y in s ==> x.id < y.id
    ensures TiesById(Insert(x, s, le), le)
  {
    hide TiesById;
    if s == [] || le(x, s[0]) {
      TiesInFront(x, s, le);
      assert Insert(x, s, le) == [x] + s;
    } else {
      TiesBehind(s, le);
      InsertTies(x, s[1..], le);
      var t := Insert(x, s[1..], le);
      InsertMultiset(x, s[1..], le);
      forall y | y in t && le(y, s[0]) ensures s[0].id < y.id {
        assert y in multiset(t);
        assert y == x || y in s[1..];
      }
      TiesInFront(s[0], t, le);
    }
  }

  lemma {:induction false} SortTies(s: seq<Blob>, le: (Blob, Blob) -> bool)
    requires StrictIds(s)
    ensures TiesById(Sort(s, le), le)
  {
    if s != [] {
      SortTies(s[1..], le);
      forall y | y in Sort(s[1..], le) ensures s[0].id < y.id {
        InSort(s[1..], le, y);
        var k :| 0 <= k < |s[1..]| && s[1..][k] == y;
        assert s[k + 1] == y;
      }
      InsertTies(s[0], Sort(s[1..], le), le);
    }
  }

  // ---- the scan ----

  /** A sorted scan of documents that compare: of any two results the one that the first deciding field puts first comes
      first, falling when descending, and ties stay in id order. */
  lemma SortedScanOrder(all: seq<Blob>, filter: Option<Filter>, sort: seq<SortField>, s: DocumentId, i: nat, j: nat)
    requires Coherent(all) && Sortable(sort, Prelude.Filter(LiveDocs(all, s), Matching(filter)))
    requires i < j < |FullScan(all, filter, Some(sort), None, None, s)|
    ensures var r := FullScan(all, filter, Some(sort), None, None, s);
            Before(sort, r[i], r[j]) || (TiedUpTo(sort, |sort|, r[i], r[j]) && r[i].id < r[j].id)
  {
    hide CompareSort, LiveDocs, Sortable, Coherent, Matches, Before, TiedUpTo, StrictIds;
    var found := Prelude.Filter(LiveDocs(all, s), Matching(filter));
    MapSame(Sort(found, SortLe(sort)), ProjectFields(None));
    LiveDocsAreViews(all, s);
    StrictFilter(LiveDocs(all, s), Matching(filter));
    SortOrder(found, sort, i, j);
  }

  lemma SortOrder(docs: seq<Blob>, sort: seq<SortField>, i: nat, j: nat)
    requires StrictIds(docs) && Sortable(sort, docs) && i < j < |Sort(docs, SortLe(sort))|
    ensures var r := Sort(docs, SortLe(sort));
            Before(sort, r[i], r[j]) || (TiedUpTo(sort, |sort|, r[i], r[j]) && r[i].id < r[j].id)
  {
    hide CompareSort, Sortable, Before, TiedUpTo, StrictIds, Sort;
    var r, le := Sort(docs, SortLe(sort)), Within(sort, docs);
    SortAgrees(docs, SortLe(sort), le);
    WithinTotal(sort, docs);
    SortSorted(docs, le);
    SortTies(docs, le);
    InSort(docs, le, r[i]);
    InSort(docs, le, r[j]);
    WithinIs(sort, docs, r[i], r[j]);
    WithinIs(sort, docs, r[j], r[i]);
    CompareSortMeaning(sort, r[i], r[j]);
    CompareSortMeaning(sort, r[j], r[i]);
    assert le(r[i], r[j]);
  }

  /** A scan lists exactly the live visible versions that the filter accepts, each once, sorted or not; without a sort
      they come in id order. */
  lemma ScanHolds(all: seq<Blob>, filter: Option<Filter>, sort: Option<seq<SortField>>, s: DocumentId)
    requires Coherent(all)
    ensures var r := FullScan(all, filter, sort, None, None, s);
            && (forall b :: b in r <==>
                  Visible(all, b.id, s) == Some(b) && !b.Deleted() && (filter.Some? ==> Matches(filter.value, b)))
            && (forall i, j :: 0 <= i < j < |r| ==> r[i].id != r[j].id)
            && (sort.None? ==> forall i, j :: 0 <= i < j < |r| ==> r[i].id < r[j].id)
  {
    hide CompareSort, Coherent, Matches, LiveDocs, Visible;
    var docs := LiveDocs(all, s);
    var found := Prelude.Filter(docs, Matching(filter));
    LiveDocsAreViews(all, s);
    StrictFilter(docs, Matching(filter));
    var r := if sort.Some? then Sort(found, SortLe(sort.value)) else found;
    MapSame(r, ProjectFields(None));
    forall b ensures b in r <==>
                     Visible(all, b.id, s) == Some(b) && !b.Deleted() && (filter.Some? ==> Matches(filter.value, b))
    {
      InFilter(docs, Matching(filter), b);
      if sort.Some? { InSort(found, SortLe(sort.value), b); }
    }
    if sort.Some? {
      SortMultiset(found, SortLe(sort.value));
      OnceEach(found, r);
    }
  }

  lemma OnceEach(s: seq<Blob>, r: seq<Blob>)
    requires StrictIds(s) && multiset(r) == multiset(s)
    ensures forall i, j :: 0 <= i < j < |r| ==> r[i].id != r[j].id
  {
    forall i, j | 0 <= i < j < |r| ensures r[i].id != r[j].id {
      assert r[i] in multiset(s) && r[j] in multiset(s);
      var k :| 0 <= k < |s| && s[k] == r[i];
      var l :| 0 <= l < |s| && s[l] == r[j];
      if k == l {
        TwiceIn(r, i, j);
        OnceIn(s, k);
        assert false;
      }
    }
  }

  lemma TwiceIn<T>(r: seq<T>, i: nat, j: nat)
    requires i < j < |r| && r[i] == r[j]
    ensures multiset(r)[r[i]] >= 2
  {
    assert r == r[..j] + [r[j]] + r[j + 1..];
    assert r[i] == r[..j][i] && r[i] in r[..j];
  }

  lemma OnceIn(s: seq<Blob>, k: nat)
    requires StrictIds(s) && k < |s|
    ensures multiset(s)[s[k]] == 1
  {
    assert s == s[..k] + [s[k]] + s[k + 1..];
    assert s[k] !in s[..k] && s[k] !in s[k + 1..];
  }

  /** A limit keeps that many results from the front, and a projection maps each result by itself. */
  lemma ScanCut(all: seq<Blob>, filter: Option<Filter>, sort: Option<seq<SortField>>, project: Option<seq<Bytes>>,
                limit: Option<nat>, s: DocumentId)
    ensures var whole := FullScan(all, filter, sort, None, None, s);
            var r := FullScan(all, filter, sort, project, limit, s);
            && |r| == (if limit.Some? && limit.value < |whole| then limit.value else |whole|)
            && forall i :: 0 <= i < |r| ==> r[i] == if project.Some? then Project(whole[i], project.value) else whole[i]
  {
    hide CompareSort, Matches, LiveDocs, Project;
    var found := Prelude.Filter(LiveDocs(all, s), Matching(filter));
    var sorted := if sort.Some? then Sort(found, SortLe(sort.value)) else found;
    MapSame(sorted, ProjectFields(None));
  }
}
