/** The memtable: blobs in (id, version) order with a running byte count (crates/ingodb-memtable/src/lib.rs). */
module MemTables {
  import opened Prelude
  import opened Bytes
  import opened Blobs
  import opened Views
  import opened Merging
  import opened Lsm
  import opened Refinement

  class MemTable {
    /** The ordered map's blobs, in key order. */
    var entries: seq<Blob>
    var sizeBytes: nat
    const maxSize: nat
    const blobSize: Blob -> nat

    /** Keys increase strictly, and the counter is the sum of the encoded sizes. */
    ghost predicate Valid()
      reads this
    {
      KeyStrict(entries) && sizeBytes == MemSize(blobSize, entries)
    }

    constructor (maxSize: nat, blobSize: Blob -> nat)
      ensures Valid() && entries == [] && this.maxSize == maxSize && this.blobSize == blobSize
    {
      this.entries := [];
      this.sizeBytes := 0;
      this.maxSize := maxSize;
      this.blobSize := blobSize;
    }

    /** Inserts or replaces the blob's (id, version), keeps the count, and says whether to flush. */
    method Insert(blob: Blob) returns (full: bool)
      requires Valid()
      modifies this`entries, this`sizeBytes
      ensures Valid() && entries == MemInsert(old(entries), blob)
      ensures full <==> MemSize(blobSize, entries) >= maxSize
    {
      hide KeyStrict;
      var i := Position(blob);
      ghost var before := entries;
      MemInsertStrict(entries, blob);
      SizeSplit(blobSize, entries, i);
      if i < |entries| && entries[i].id == blob.id && entries[i].version == blob.version {
        assert entries[i..] == [entries[i]] + entries[i + 1..];
        SizeReplace(blobSize, entries[..i], blob, entries[i + 1..]);
        sizeBytes := sizeBytes - blobSize(entries[i]);
        entries := entries[..i] + ([blob] + entries[i + 1..]);
      } else {
        SizeReplace(blobSize, entries[..i], blob, entries[i..]);
        entries := entries[..i] + ([blob] + entries[i..]);
      }
      assert entries == MemInsert(before, blob);
      sizeBytes := sizeBytes + blobSize(blob);
      full := sizeBytes >= maxSize;
    }

    /** The first entry whose key is not below the blob's. */
    method Position(blob: Blob) returns (i: nat)
      ensures i <= |entries| && (i < |entries| ==> KeyLe(blob, entries[i]))
      ensures MemInsert(entries, blob) == entries[..i] + MemInsert(entries[i..], blob)
    {
      hide MemInsert;
      i := 0;
      assert entries[0..] == entries && entries[..0] + MemInsert(entries, blob) == MemInsert(entries, blob);
      while i < |entries| && !KeyLe(blob, entries[i])
        invariant i <= |entries|
        invariant MemInsert(entries, blob) == entries[..i] + MemInsert(entries[i..], blob)
      {
        PositionStep(entries, blob, i);
        i := i + 1;
      }
    }

    /** The highest version of `id` not above `snapshot`: the last key of the range up to (id, snapshot). */
    method Get(id: DocumentId, snapshot: DocumentId) returns (r: Option<Blob>)
      requires Valid()
      ensures r == Visible(entries, id, snapshot)
    {
      var i := |entries|;
      while i > 0 && !(entries[i - 1].id < id || (entries[i - 1].id == id && entries[i - 1].version <= snapshot))
        invariant 0 <= i <= |entries|
        invariant forall k :: i <= k < |entries| ==>
                  entries[k].id > id || (entries[k].id == id && entries[k].version > snapshot)
      {
        i := i - 1;
      }
      if i > 0 && entries[i - 1].id == id {
        r := Some(entries[i - 1]);
        OnlyHighest(entries, id, snapshot, i - 1);
      } else {
        r := None;
        forall b | b in entries ensures !Shows(b, id, snapshot) {
          var k :| 0 <= k < |entries| && entries[k] == b;
          if k < i - 1 { assert KeyLe(entries[k], entries[i - 1]); }
        }
      }
    }

    function ShouldFlush(): bool
      reads this
    {
      sizeBytes >= maxSize
    }

    /** Hands out all entries in key order and starts over. */
    method Drain() returns (drained: seq<Blob>)
      requires Valid()
      modifies this`entries, this`sizeBytes
      ensures Valid() && entries == [] && drained == old(entries)
    {
      drained := entries;
      entries := [];
      sizeBytes := 0;
    }
  }

  /** A blob behind an entry is inserted behind it. */
  lemma PositionStep(entries: seq<Blob>, blob: Blob, i: nat)
    requires i < |entries| && !KeyLe(blob, entries[i])
    ensures entries[..i] + MemInsert(entries[i..], blob) == entries[..i + 1] + MemInsert(entries[i + 1..], blob)
  {
    assert entries[i..][1..] == entries[i + 1..];
    assert entries[..i + 1] == entries[..i] + [entries[i]];
  }

  lemma {:induction false} SizeAppend(blobSize: Blob -> nat, a: seq<Blob>, b: seq<Blob>)
    ensures MemSize(blobSize, a + b) == MemSize(blobSize, a) + MemSize(blobSize, b)
  {
    if a == [] {
      assert a + b == b;
    } else {
      assert (a + b)[1..] == a[1..] + b;
      SizeAppend(blobSize, a[1..], b);
    }
  }

  lemma SizeSplit(blobSize: Blob -> nat, s: seq<Blob>, i: nat)
    requires i <= |s|
    ensures MemSize(blobSize, s) == MemSize(blobSize, s[..i]) + MemSize(blobSize, s[i..])
  {
    assert s == s[..i] + s[i..];
    SizeAppend(blobSize, s[..i], s[i..]);
  }

  lemma SizeReplace(blobSize: Blob -> nat, a: seq<Blob>, b: Blob, c: seq<Blob>)
    ensures MemSize(blobSize, a + ([b] + c)) == MemSize(blobSize, a) + blobSize(b) + MemSize(blobSize, c)
    ensures forall d :: MemSize(blobSize, [d] + c) == blobSize(d) + MemSize(blobSize, c)
  {
    forall d ensures MemSize(blobSize, [d] + c) == blobSize(d) + MemSize(blobSize, c) { assert ([d] + c)[1..] == c; }
    SizeAppend(blobSize, a, [b] + c);
    assert ([b] + c)[1..] == c;
  }

  lemma OnlyHighest(entries: seq<Blob>, id: DocumentId, snapshot: DocumentId, i: nat)
    requires KeyStrict(entries) && i < |entries| && Shows(entries[i], id, snapshot)
    requires forall k :: i < k < |entries| ==> !Shows(entries[k], id, snapshot)
    ensures Visible(entries, id, snapshot) == Some(entries[i])
  {
    var b := entries[i];
    forall x, y | x in entries && y in entries && x.id == y.id && x.version == y.version ensures x == y {
      SameKeySameEntry(entries, x, y);
    }
    forall c | c in entries && Shows(c, id, snapshot) ensures c.version <= b.version {
      var k :| 0 <= k < |entries| && entries[k] == c;
      if k < i { assert KeyLe(entries[k], entries[i]); }
    }
    VisibleUnique(entries, id, snapshot, b);
  }

  lemma SameKeySameEntry(entries: seq<Blob>, x: Blob, y: Blob)
    requires KeyStrict(entries) && x in entries && y in entries && x.id == y.id && x.version == y.version
    ensures x == y
  {
    var i :| 0 <= i < |entries| && entries[i] == x;
    var j :| 0 <= j < |entries| && entries[j] == y;
  }
}
