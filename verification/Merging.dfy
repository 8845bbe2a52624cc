/** Merging versions: sort and dedup, the snapshot-aware dedup, and the tombstone filter
    (crates/ingodb-lsm/src/lib.rs:784-841, crates/ingodb-lsm/src/compaction.rs:230-261). */
module Merging {
  import opened Prelude
  import opened Bytes
  import opened Blobs
  import opened Sorting
  import opened Views

  /** By id, and within one id the newest version first. */
  predicate MergeLe(a: Blob, b: Blob) { a.id < b.id || (a.id == b.id && a.version >= b.version) }

  /** By id and then version: the key order of primary tables and memtables. */
  predicate KeyLe(a: Blob, b: Blob) { a.id < b.id || (a.id == b.id && a.version <= b.version) }

  /** The first entry of each run of equal ids, and of the others those not below `oldest`. */
  function Keep(s: seq<Blob>, last: Option<DocumentId>, oldest: Option<DocumentId>): seq<Blob> {
    if s == [] then []
    else if last == Some(s[0].id) then
      (if oldest.Some? && s[0].version >= oldest.value then [s[0]] else []) + Keep(s[1..], last, oldest)
    else [s[0]] + Keep(s[1..], Some(s[0].id), oldest)
  }

  /** `dedup_by` on ids after the merge sort: the newest version of each id. */
  function Newest(s: seq<Blob>): seq<Blob> { Keep(Sort(s, MergeLe), None, None) }

  /** Drop tombstones only when the output goes below every table and no snapshot is open. */
  predicate Purges(outputLevel: nat, maxLevel: nat, oldest: Option<DocumentId>) {
    outputLevel > maxLevel && oldest.None?
  }

  predicate IsLive(b: Blob) { !b.Deleted() }

  /** What compaction writes for the merged inputs. */
  function Compacted(s: seq<Blob>, oldest: Option<DocumentId>, purge: bool): seq<Blob> {
    var kept := Keep(Sort(s, MergeLe), None, oldest);
    if purge then Filter(kept, IsLive) else kept
  }

  /** The merge as the program runs it: one loop over groups of equal ids when a snapshot is open. */
  method Merge(s: seq<Blob>, oldest: Option<DocumentId>, purge: bool) returns (merged: seq<Blob>)
    ensures merged == Compacted(s, oldest, purge)
  {
    merged := Sort(s, MergeLe);
    if oldest.Some? {
      merged := KeepForSnapshots(merged, oldest.value);
    } else {
      merged := Keep(merged, None, None);
    }
    if purge {
      merged := Filter(merged, IsLive);
    }
  }

  method KeepForSnapshots(merged: seq<Blob>, oldest: DocumentId) returns (kept: seq<Blob>)
    ensures kept == Keep(merged, None, Some(oldest))
  {
    hide Keep;
    kept := [];
    var i := 0;
    ghost var last: Option<DocumentId> := None;
    while i < |merged|
      invariant i <= |merged|
      invariant i < |merged| ==> last != Some(merged[i].id)
      invariant kept + Keep(merged[i..], last, Some(oldest)) == Keep(merged, None, Some(oldest))
    {
      var id := merged[i].id;
      KeepStep(merged, i, last, Some(oldest), kept);
      kept := kept + [merged[i]];
      i := i + 1;
      last := Some(id);
      while i < |merged| && merged[i].id == id
        invariant i <= |merged| && last == Some(id)
        invariant kept + Keep(merged[i..], last, Some(oldest)) == Keep(merged, None, Some(oldest))
        decreases |merged| - i
      {
        KeepStep(merged, i, last, Some(oldest), kept);
        if merged[i].version >= oldest {
          kept := kept + [merged[i]];
        }
        i := i + 1;
      }
    }
    KeepEnd(merged, last, Some(oldest));
  }

  lemma KeepEnd(s: seq<Blob>, last: Option<DocumentId>, oldest: Option<DocumentId>)
    ensures Keep(s[|s|..], last, oldest) == []
  {
  }

  lemma KeepStep(s: seq<Blob>, i: nat, last: Option<DocumentId>, oldest: Option<DocumentId>, kept: seq<Blob>)
    requires i < |s|
    ensures kept + Keep(s[i..], last, oldest) ==
            (if last != Some(s[i].id) || (oldest.Some? && s[i].version >= oldest.value) then kept + [s[i]] else kept)
            + Keep(s[i + 1..], Some(s[i].id), oldest)
  {
    assert s[i..][1..] == s[i + 1..];
  }

  // ---- what is kept ----

  /** No version of the same document in `s` is newer. */
  ghost predicate IsNewest(b: Blob, s: seq<Blob>) {
    forall c :: c in s && c.id == b.id ==> c.version <= b.version
  }

  lemma MergeLeTotal()
    ensures TotalPreorder(MergeLe) && TotalPreorder(KeyLe)
  {
  }

  lemma SortedHead(s: seq<Blob>)
    requires s != [] && Sorted(s, MergeLe)
    ensures Sorted(s[1..], MergeLe) && forall c :: c in s[1..] ==> MergeLe(s[0], c)
  {
    forall c | c in s[1..] ensures MergeLe(s[0], c) {
      var k :| 1 <= k < |s| && s[k] == c;
    }
  }

  lemma {:induction false} KeepMembers(s: seq<Blob>, last: Option<DocumentId>, oldest: Option<DocumentId>, b: Blob)
    requires Sorted(s, MergeLe) && Coherent(s)
    requires last.Some? ==> forall c :: c in s ==> last.value <= c.id
    ensures b in Keep(s, last, oldest) <==>
            b in s && ((last != Some(b.id) && IsNewest(b, s)) || (oldest.Some? && b.version >= oldest.value))
  {
    if s != [] {
      var x, t := s[0], s[1..];
      assert s == [x] + t;
      SortedHead(s);
      KeepMembers(t, Some(x.id), oldest, b);
      assert b in s <==> b == x || b in t;
      if b.id == x.id && b in t && IsNewest(b, s) {
        assert b == x;
      }
    }
  }

  /** Compaction keeps a version when it is the newest of its id or not older than the oldest
      snapshot, unless it purges and the version is a tombstone. */
  lemma CompactedMembers(s: seq<Blob>, oldest: Option<DocumentId>, purge: bool, b: Blob)
    requires Coherent(s)
    ensures b in Compacted(s, oldest, purge) <==>
            && b in s && (IsNewest(b, s) || (oldest.Some? && b.version >= oldest.value))
            && (purge ==> !b.Deleted())
  {
    var sorted := Sort(s, MergeLe);
    MergeLeTotal();
    SortSorted(s, MergeLe);
    forall c ensures c in sorted <==> c in s { InSort(s, MergeLe, c); }
    KeepMembers(sorted, None, oldest, b);
    InFilter(Keep(sorted, None, oldest), IsLive, b);
  }

  /** What a merge keeps of a document it keeps upwards. */
  lemma KeptUpwards(s: seq<Blob>, oldest: Option<DocumentId>, purge: bool, w: Blob, v: Blob)
    requires Coherent(s) && (purge ==> oldest.None?)
    requires w in Compacted(s, oldest, purge) && v in s && v.id == w.id && w.version < v.version
    ensures v in Compacted(s, oldest, purge)
  {
    CompactedMembers(s, oldest, purge, w);
    CompactedMembers(s, oldest, purge, v);
  }

  /** The newest version of each id always survives a merge that does not purge. */
  lemma LatestKept(s: seq<Blob>, oldest: Option<DocumentId>, id: DocumentId)
    requires Coherent(s)
    ensures Visible(Compacted(s, oldest, false), id, MAX_ID) == Visible(s, id, MAX_ID)
  {
    MergedView(s, oldest, id, MAX_ID);
  }

  /** A merge shows at snapshot `at` what its inputs showed exactly when that version is absent, or the newest,
      or not older than the oldest open snapshot; otherwise the document is gone at `at`. */
  lemma MergedView(s: seq<Blob>, oldest: Option<DocumentId>, id: DocumentId, at: DocumentId)
    requires Coherent(s)
    ensures var before, after := Visible(s, id, at), Visible(Compacted(s, oldest, false), id, at);
            && (after == before <==>
                 before.None? || IsNewest(before.value, s) || (oldest.Some? && before.value.version >= oldest.value))
            && (after == before || after == None)
  {
    var out := Compacted(s, oldest, false);
    var before, after := Visible(s, id, at), Visible(out, id, at);
    forall b ensures b in out ==> b in s { CompactedMembers(s, oldest, false, b); }
    if before.Some? {
      CompactedMembers(s, oldest, false, before.value);
      if before.value in out {
        VisibleUnique(out, id, at, before.value);
      } else if after.Some? {
        CompactedMembers(s, oldest, false, after.value);
        assert false;
      }
    }
  }

  // ---- the merged list of a scan ----

  ghost predicate StrictIds(s: seq<Blob>) {
    forall i, j :: 0 <= i < j < |s| ==> s[i].id < s[j].id
  }

  lemma {:induction false} KeepNoneStrict(s: seq<Blob>, last: Option<DocumentId>)
    requires Sorted(s, MergeLe) && (last.Some? ==> forall b :: b in s ==> last.value <= b.id)
    ensures StrictIds(Keep(s, last, None))
    ensures forall b :: b in Keep(s, last, None) ==> b in s && (last.Some? ==> last.value < b.id)
  {
    if s != [] {
      assert s == [s[0]] + s[1..];
      SortedHead(s);
      KeepNoneStrict(s[1..], Some(s[0].id));
    }
  }

  /** After sort and dedup there is one blob for each id, in id order, and it is the visible one. */
  lemma NewestIsView(s: seq<Blob>)
    requires Coherent(s)
    ensures StrictIds(Newest(s))
    ensures forall b :: b in Newest(s) <==> Visible(s, b.id, MAX_ID) == Some(b)
  {
    var sorted := Sort(s, MergeLe);
    MergeLeTotal();
    SortSorted(s, MergeLe);
    KeepNoneStrict(sorted, None);
    forall b ensures b in Newest(s) <==> Visible(s, b.id, MAX_ID) == Some(b) {
      CompactedMembers(s, None, false, b);
      if b in s && IsNewest(b, s) {
        VisibleUnique(s, b.id, MAX_ID, b);
      }
    }
  }
}
