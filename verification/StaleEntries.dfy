/** Index scans over any entries, stale ones included (crates/ingodb-lsm/src/lib.rs:1105-1139): which documents come
    out, in which order, and how often. */
module StaleEntries {
  import opened Prelude
  import opened Bytes
  import opened Values
  import opened Blobs
  import opened Sorting
  import opened Views
  import opened Lsm
  import opened Codec
  import opened Queries
  import opened QueryMeaning
  import opened Keys
  import opened Merging
  import opened Scans
  import opened SortedScans
  import opened SecondaryIndex

  /** The same value up to the sign of zeros, and no NaN; or both missing. */
  ghost predicate SameField(x: Option<Value>, y: Option<Value>) {
    (x.None? && y.None?) || (x.Some? && y.Some? && OneZero(x.value) == OneZero(y.value) && !HoldsNaN(x.value))
  }

  /** The document still has the value of the entry in every indexed field. */
  ghost predicate SameFields(fields: seq<Bytes>, b: Blob, entry: Blob) {
    forall f :: f in fields ==> SameField(GetField(b, f), GetField(entry, f))
  }

  /** The entry leads to the document: it is what its id reads back, live, unchanged in the indexed fields, and accepted
      by the filter. */
  ghost predicate Leads(st: State, fields: seq<Bytes>, filter: Option<Filter>, entry: Blob, b: Blob) {
    && !entry.Deleted() && Get(st, entry.id) == Some(b) && SameFields(fields, b, entry)
    && (filter.Some? ==> Matches(filter.value, b))
  }

  lemma CurrentIff(fields: seq<Bytes>, b: Blob, entry: Blob)
    ensures Current(fields, b, entry) <==> SameFields(fields, b, entry)
  {
    hide ValueEq, OneZero, HoldsNaN, GetField;
    forall f ensures OptionEq(GetField(b, f), GetField(entry, f)) <==> SameField(GetField(b, f), GetField(entry, f)) {
      var x, y := GetField(b, f), GetField(entry, f);
      if x.Some? && y.Some? {
        ValueEqIff(x.value, y.value);
      }
    }
  }

  lemma HitIff(st: State, fields: seq<Bytes>, filter: Option<Filter>, entry: Blob, b: Blob)
    ensures Hit(st, fields, filter, entry) == Some(b) <==> Leads(st, fields, filter, entry, b)
  {
    hide Get, Current, SameFields, Matches;
    if Get(st, entry.id).Some? {
      CurrentIff(fields, Get(st, entry.id).value, entry);
    }
  }

  /** The walk gives exactly the documents that some entry leads to: an entry that differs in an indexed field from the
      document its id reads back contributes nothing. */
  lemma {:induction false} HitsIff(st: State, fields: seq<Bytes>, filter: Option<Filter>, entries: seq<Blob>, b: Blob)
    ensures b in Hits(st, fields, filter, entries) <==>
            exists e :: e in entries && Leads(st, fields, filter, e, b)
  {
    hide Hit, Leads;
    if entries != [] {
      HitsIff(st, fields, filter, entries[1..], b);
      HitIff(st, fields, filter, entries[0], b);
      assert entries == [entries[0]] + entries[1..];
    }
  }

  lemma StaleGivesNothing(st: State, fields: seq<Bytes>, filter: Option<Filter>, entry: Blob, f: Bytes, b: Blob)
    requires Get(st, entry.id) == Some(b) && f in fields && !SameField(GetField(b, f), GetField(entry, f))
    ensures Hits(st, fields, filter, [entry]) == []
  {
    hide Get, GetField, Matches, SameField;
    var hits := Hits(st, fields, filter, [entry]);
    if hits != [] {
      HitsIff(st, fields, filter, [entry], hits[0]);
      assert false;
    }
  }

  /** Each result is what a lookup of its id gives: live, and matching. */
  lemma HitsRead(st: State, fields: seq<Bytes>, filter: Option<Filter>, entries: seq<Blob>, b: Blob)
    requires b in Hits(st, fields, filter, entries)
    ensures Get(st, b.id) == Some(b) && !b.Deleted() && (filter.Some? ==> Matches(filter.value, b))
    ensures exists e :: e in entries && e.id == b.id && SameFields(fields, b, e)
  {
    hide Matches, SameFields, Find;
    HitsIff(st, fields, filter, entries, b);
    var e :| e in entries && Leads(st, fields, filter, e, b);
    FoundHasId(st, e.id);
  }

  lemma FoundHasId(st: State, id: DocumentId)
    ensures Find(st, id, MAX_ID).Some? ==> Find(st, id, MAX_ID).value.id == id
  {
    hide Visible, Sources;
    var k := FirstMatchFound(Sources(st), id, MAX_ID);
    if Find(st, id, MAX_ID).Some? {
      ShowsId(Sources(st)[k], id);
    }
  }

  lemma ShowsId(src: seq<Blob>, id: DocumentId)
    ensures Visible(src, id, MAX_ID).Some? ==> Visible(src, id, MAX_ID).value.id == id
  {
  }

  // ---- order ----

  /** No indexed value holds a negative zero, which equals zero but has another key. */
  ghost predicate PlainZeros(fields: seq<Bytes>, b: Blob) {
    forall f :: f in fields && GetField(b, f).Some? ==> OneZero(GetField(b, f).value) == GetField(b, f).value
  }

  /** The entries and the documents they name hold no negative zero. */
  ghost predicate AllPlain(st: State, fields: seq<Bytes>, entries: seq<Blob>) {
    forall e :: e in entries ==>
      PlainZeros(fields, e) && (Get(st, e.id).Some? ==> PlainZeros(fields, Get(st, e.id).value))
  }

  lemma {:induction false} SameKey(env: Env, fields: seq<Bytes>, b: Blob, entry: Blob)
    requires SameFields(fields, b, entry) && PlainZeros(fields, b) && PlainZeros(fields, entry)
    ensures DocumentKey(env, fields, b) == DocumentKey(env, fields, entry)
  {
    hide GetField, OneZero, HoldsNaN, FieldKey;
    if fields != [] {
      assert SameField(GetField(b, fields[0]), GetField(entry, fields[0]));
      SameKey(env, fields[1..], b, entry);
    }
  }

  /** An entry has the key of the document it leads to. */
  lemma LeadsKey(env: Env, st: State, fields: seq<Bytes>, filter: Option<Filter>, entries: seq<Blob>, e: Blob, b: Blob)
    requires AllPlain(st, fields, entries) && e in entries && Leads(st, fields, filter, e, b)
    ensures DocumentKey(env, fields, b) == DocumentKey(env, fields, e)
  {
    hide Get, PlainZeros, SameFields, Matches;
    SameKey(env, fields, b, e);
  }

  /** Over entries in key order, the documents come out in the order of their own current keys. */
  lemma {:induction false} HitsInOrder(
      env: Env, st: State, fields: seq<Bytes>, filter: Option<Filter>, entries: seq<Blob>)
    requires Sorted(entries, EntryLe(env, fields)) && AllPlain(st, fields, entries)
    ensures Sorted(Hits(st, fields, filter, entries), EntryLe(env, fields))
  {
    hide Hit, Leads, AllPlain, DocumentKey, LexLe;
    if entries != [] {
      var e, rest := entries[0], entries[1..];
      assert entries == [e] + rest;
      forall i, j | 0 <= i < j < |rest| ensures EntryLe(env, fields)(rest[i], rest[j]) {
        assert entries[i + 1] == rest[i] && entries[j + 1] == rest[j];
      }
      RestPlain(st, fields, entries);
      HitsInOrder(env, st, fields, filter, rest);
      if Hit(st, fields, filter, e).Some? {
        var b := Hit(st, fields, filter, e).value;
        HitIff(st, fields, filter, e, b);
        LeadsKey(env, st, fields, filter, entries, e, b);
        forall c | c in Hits(st, fields, filter, rest) ensures EntryLe(env, fields)(b, c) {
          HitsIff(st, fields, filter, rest, c);
          var x :| x in rest && Leads(st, fields, filter, x, c);
          LeadsKey(env, st, fields, filter, entries, x, c);
          var k :| 0 <= k < |rest| && rest[k] == x;
          assert EntryLe(env, fields)(entries[0], entries[k + 1]);
        }
      }
    }
  }

  lemma RestPlain(st: State, fields: seq<Bytes>, entries: seq<Blob>)
    requires AllPlain(st, fields, entries) && entries != []
    ensures AllPlain(st, fields, entries[1..])
  {
    hide PlainZeros, Get;
  }

  /** Stored and buffered entries are merged into one list in key order, none lost and none added. */
  lemma IterHolds(env: Env, fields: seq<Bytes>, stored: seq<Blob>, buffered: seq<Blob>)
    ensures Sorted(IterSorted(env, fields, stored, buffered), EntryLe(env, fields))
    ensures multiset(IterSorted(env, fields, stored, buffered)) == multiset(stored) + multiset(buffered)
  {
    hide DocumentKey;
    EntryLeTotal(env, fields);
    SortSorted(stored + buffered, EntryLe(env, fields));
    SortMultiset(stored + buffered, EntryLe(env, fields));
  }

  /** A new index lists the live newest versions reduced to the indexed fields, one for each id, in key order. */
  lemma BuildHolds(env: Env, fields: seq<Bytes>, all: seq<Blob>)
    requires Coherent(all)
    ensures var entries := Build(env, fields, all);
            && Sorted(entries, EntryLe(env, fields))
            && (forall i, j :: 0 <= i < j < |entries| ==> entries[i].id != entries[j].id)
            && forall e :: e in entries <==>
                 exists b: Blob :: Visible(all, b.id, MAX_ID) == Some(b) && !b.Deleted() && e == Project(b, fields)
  {
    hide Newest, DocumentKey, Project, Visible, Coherent;
    var docs, le := Prelude.Filter(Newest(all), IsLive), EntryLe(env, fields);
    var entries, sorted := Build(env, fields, all), Sort(docs, le);
    NewestIsView(all);
    StrictFilter(Newest(all), IsLive);
    BuildOrder(env, fields, all);
    EntryLeTotal(env, fields);
    SortSorted(Map(docs, Projection(fields)), le);
    SortMultiset(docs, le);
    OnceEach(docs, sorted);
    forall i | 0 <= i < |sorted| ensures entries[i] == Project(sorted[i], fields) && entries[i].id == sorted[i].id {
      ProjectId(sorted[i], fields);
    }
    forall e ensures e in entries <==>
                     exists b: Blob :: Visible(all, b.id, MAX_ID) == Some(b) && !b.Deleted() && e == Project(b, fields)
    {
      Listed(fields, sorted, e);
      forall b ensures b in sorted <==> Visible(all, b.id, MAX_ID) == Some(b) && !b.Deleted() {
        InSort(docs, le, b);
        InFilter(Newest(all), IsLive, b);
      }
    }
  }

  lemma Listed(fields: seq<Bytes>, docs: seq<Blob>, e: Blob)
    ensures e in Map(docs, Projection(fields)) <==> exists b :: b in docs && e == Project(b, fields)
  {
    hide Project;
    var entries := Map(docs, Projection(fields));
    if e in entries {
      var i :| 0 <= i < |entries| && entries[i] == e;
      assert docs[i] in docs;
    }
    if b :| b in docs && e == Project(b, fields) {
      var i :| 0 <= i < |docs| && docs[i] == b;
      assert entries[i] == e;
    }
  }

  lemma ProjectId(b: Blob, fields: seq<Bytes>)
    ensures Project(b, fields).id == b.id
  {
  }

  // ---- how often ----

  /** No document is listed twice under one key. */
  ghost predicate OncePerKey(env: Env, fields: seq<Bytes>, entries: seq<Blob>) {
    forall i, j :: 0 <= i < j < |entries| && entries[i].id == entries[j].id ==>
      DocumentKey(env, fields, entries[i]) != DocumentKey(env, fields, entries[j])
  }

  /** A document listed at most once under each key comes out at most once, however many stale entries it has. */
  lemma {:induction false} HitsOnce(env: Env, st: State, fields: seq<Bytes>, filter: Option<Filter>, entries: seq<Blob>,
                                    i: nat, j: nat)
    requires OncePerKey(env, fields, entries) && AllPlain(st, fields, entries)
    requires i < j < |Hits(st, fields, filter, entries)|
    ensures Hits(st, fields, filter, entries)[i].id != Hits(st, fields, filter, entries)[j].id
    decreases entries
  {
    hide Hit, Leads, AllPlain, DocumentKey;
    var e, rest, hits := entries[0], entries[1..], Hits(st, fields, filter, entries);
    var later := Hits(st, fields, filter, rest);
    assert entries == [e] + rest;
    RestPlain(st, fields, entries);
    forall k, l | 0 <= k < l < |rest| && rest[k].id == rest[l].id
      ensures DocumentKey(env, fields, rest[k]) != DocumentKey(env, fields, rest[l])
    {
      assert entries[k + 1] == rest[k] && entries[l + 1] == rest[l];
    }
    if Hit(st, fields, filter, e).None? {
      HitsOnce(env, st, fields, filter, rest, i, j);
    } else if i > 0 {
      HitsOnce(env, st, fields, filter, rest, i - 1, j - 1);
    } else {
      var b, c := hits[0], hits[j];
      assert c == later[j - 1] && c in later;
      HitIff(st, fields, filter, e, b);
      HitsIff(st, fields, filter, rest, c);
      var x :| x in rest && Leads(st, fields, filter, x, c);
      LeadsKey(env, st, fields, filter, entries, e, b);
      LeadsKey(env, st, fields, filter, entries, x, c);
      LeadsId(st, fields, filter, e, b);
      LeadsId(st, fields, filter, x, c);
      var k :| 0 <= k < |rest| && rest[k] == x;
      assert entries[k + 1] == x;
    }
  }

  lemma LeadsId(st: State, fields: seq<Bytes>, filter: Option<Filter>, e: Blob, b: Blob)
    requires Leads(st, fields, filter, e, b)
    ensures b.id == e.id && Get(st, e.id) == Some(b)
  {
    hide Find, SameFields, Matches;
    FoundHasId(st, e.id);
  }

  /** The scan returns a beginning of these documents: all without a limit, and otherwise as many as the limit, but
      never none when there is one. */
  lemma CutIsPrefix(docs: seq<Blob>, limit: Option<nat>)
    ensures CutAfterPush(docs, limit) <= docs && (limit.None? ==> CutAfterPush(docs, limit) == docs)
    ensures limit.Some? && limit.value >= 1 && limit.value <= |docs| ==> |CutAfterPush(docs, limit)| == limit.value
    ensures limit.Some? && limit.value >= |docs| ==> CutAfterPush(docs, limit) == docs
    ensures limit == Some(0) && docs != [] ==> |CutAfterPush(docs, limit)| == 1
  {
  }
}
