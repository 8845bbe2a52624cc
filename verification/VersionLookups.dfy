/** Lookups by document and snapshot in tables keyed by id and version: one block and at most the one before it
    answer what filtering the whole table would (crates/ingodb-sstable/src/reader.rs:205-286). */
module VersionLookups {
  import opened Prelude
  import opened Bytes
  import opened Blobs
  import opened Codec
  import opened Sorting
  import opened Views
  import opened Merging
  import opened Bloom
  import opened TableFormat
  import opened TableReader
  import opened TableFiles
  import opened TableLookups

  const ID_SIZE: nat := 16

  /** The 32-byte key of one version of a document. */
  function VersionKey(b: Blob): (k: Bytes)
    ensures |k| == 32
  {
    IdBytes(b.id) + IdBytes(b.version)
  }

  /** An entry with the prefix and not above the bound. */
  predicate Candidate(e: Entry, prefix: Bytes, bound: Bytes) {
    |e.key| >= ID_SIZE && e.key[..ID_SIZE] == prefix && LexLe(e.key, bound)
  }

  /** The candidate with the highest key. */
  ghost predicate IsLatest(entries: seq<Entry>, prefix: Bytes, bound: Bytes, r: Option<Entry>) {
    match r
    case None => forall e :: e in entries ==> !Candidate(e, prefix, bound)
    case Some(x) => x in entries && Candidate(x, prefix, bound)
                    && forall e :: e in entries && Candidate(e, prefix, bound) ==> LexLe(e.key, x.key)
  }

  /** Scans one block backwards. */
  method LastCandidate(block: seq<Entry>, prefix: Bytes, bound: Bytes) returns (best: Option<Entry>)
    ensures best.None? ==> forall e :: e in block ==> !Candidate(e, prefix, bound)
    ensures best.Some? ==> best.value in block && Candidate(best.value, prefix, bound)
    ensures Sorted(block, EntryLe) ==> IsLatest(block, prefix, bound, best)
  {
    hide Candidate, EntryLe;
    var i: nat := |block|;
    while i > 0
      invariant i <= |block|
      invariant forall j :: i <= j < |block| ==> !Candidate(block[j], prefix, bound)
    {
      i := i - 1;
      if Candidate(block[i], prefix, bound) {
        if Sorted(block, EntryLe) { BackwardsIsLatest(block, prefix, bound, i); }
        return Some(block[i]);
      }
    }
    return None;
  }

  lemma BackwardsIsLatest(block: seq<Entry>, prefix: Bytes, bound: Bytes, i: nat)
    requires Sorted(block, EntryLe) && i < |block| && Candidate(block[i], prefix, bound)
    requires forall j :: i < j < |block| ==> !Candidate(block[j], prefix, bound)
    ensures IsLatest(block, prefix, bound, Some(block[i]))
  {
    hide Candidate, Lex;
    forall e | e in block && Candidate(e, prefix, bound) ensures LexLe(e.key, block[i].key) {
      var j :| 0 <= j < |block| && block[j] == e;
      LexEqual(e.key, e.key);
      assert j < i ==> EntryLe(block[j], block[i]);
    }
  }

  lemma BlockSorted(entries: seq<Entry>, blocks: seq<seq<Entry>>, i: nat)
    requires Flatten(blocks) == entries && Sorted(entries, EntryLe) && NoneEmpty(blocks) && i < |blocks|
    ensures Sorted(blocks[i], EntryLe)
  {
    hide Lex, Sorted, EntryLe, Flatten;
    BlockBounds(entries, blocks, i);
  }

  lemma PreviousBelow(blocks: seq<seq<Entry>>, i: nat, bound: Bytes, found: bool)
    requires Chosen(blocks, i, bound, found)
    ensures !found && i > 0 ==> LexLess(LastKey(blocks[i - 1]), bound)
  {
  }

  function BlobOf(e: Option<Entry>): Option<Blob> {
    match e case Some(x) => Some(x.blob) case None => None
  }

  /** The block to look in: the one the search names, or the last when the bound is beyond all blocks. */
  method FindBlock(index: seq<BlockIndex>, bound: Bytes, ghost blocks: seq<seq<Entry>>) returns (found: bool, i: nat)
    ensures index != [] ==> i < |index|
    ensures index != [] && KeysSorted(Map(index, LastKeyOf)) && |blocks| == |index|
            && (forall j :: 0 <= j < |blocks| ==> index[j].lastKey == LastKey(blocks[j]))
            ==> Chosen(blocks, i, bound, found)
  {
    hide LexLe, LexLess, Lex, KeysSorted, LastKey, Chosen;
    found, i := BinarySearch(Map(index, LastKeyOf), bound);
    ghost var insertion := i;
    if !found && i >= |index| && index != [] {
      i := |index| - 1;
    }
    if index != [] && KeysSorted(Map(index, LastKeyOf)) && |blocks| == |index|
       && forall j :: 0 <= j < |blocks| ==> index[j].lastKey == LastKey(blocks[j])
    {
      ChosenBySearch(blocks, Map(index, LastKeyOf), i, bound, found, insertion);
    }
  }

  /** The blob of the candidate with the highest key, or nothing when there is no candidate. */
  ghost predicate LatestBlob(entries: seq<Entry>, prefix: Bytes, bound: Bytes, r: Option<Blob>) {
    exists best :: IsLatest(entries, prefix, bound, best) && r == BlobOf(best)
  }

  /** The candidate with the highest key of the whole table, from the block the search names or the one before it. */
  method GetLatestByPrefix(env: Env, r: Reader, prefix: Bytes, bound: Bytes, ghost entries: seq<Entry>,
                           ghost blocks: seq<seq<Entry>>)
    returns (res: Result<Option<Blob>>)
    requires |bound| >= ID_SIZE && bound[..ID_SIZE] == prefix
    ensures Serves(env, r, entries, blocks) ==> res.Ok? && LatestBlob(entries, prefix, bound, res.value)
  {
    hide Serves, IsLatest, Probe, KeysSorted, LastKey;
    ghost var ok := Serves(env, r, entries, blocks);
    if ok { ServedKeys(env, r, entries, blocks); FilterKnowsPrefix(env, r, entries, blocks, prefix, bound); }
    var may := MayContain(env, r.filter, prefix);
    if may.Err? {
      return Err(may.error);
    }
    if !may.value || r.index == [] {
      return Ok(None);
    }
    var last := LatestInBlocks(env, r, prefix, bound, entries, blocks);
    return if last.Err? then Err(last.error) else Ok(BlobOf(last.value));
  }

  /** The search behind the filter: one block, and the one before it if that ends with the prefix or above. */
  method LatestInBlocks(env: Env, r: Reader, prefix: Bytes, bound: Bytes, ghost entries: seq<Entry>,
                        ghost blocks: seq<seq<Entry>>)
    returns (res: Result<Option<Entry>>)
    requires |bound| >= ID_SIZE && bound[..ID_SIZE] == prefix && r.index != []
    ensures Serves(env, r, entries, blocks) ==> res.Ok? && IsLatest(entries, prefix, bound, res.value)
  {
    hide Serves, ReadBlock, LexLe, LexLess, Lex, KeysSorted, IsLatest, Candidate, Sorted, EntryLe, Flatten,
         LastKey, NoneEmpty, Chosen, NoneFrom;
    ghost var ok := Serves(env, r, entries, blocks);
    if ok { ServedKeys(env, r, entries, blocks); }
    var found, i: nat := FindBlock(r.index, bound, blocks);
    var block := ReadBlockEntries(env, r.data, r.index[i]);
    if block.Err? {
      return Err(block.error);
    }
    var last := LastCandidate(block.value, prefix, bound);
    if ok {
      BlockSorted(entries, blocks, i);
      HereOrBefore(entries, blocks, i, prefix, bound, found, last);
      PreviousBelow(blocks, i, bound, found);
    }
    if last.None? && i > 0 {
      var previous := r.index[i - 1];
      if |previous.lastKey| >= ID_SIZE && LexLe(prefix, previous.lastKey[..ID_SIZE]) {
        var earlier := ReadBlockEntries(env, r.data, previous);
        if earlier.Err? {
          return Err(earlier.error);
        }
        if ok { BlockSorted(entries, blocks, i - 1); }
        last := LastCandidate(earlier.value, prefix, bound);
      }
      if ok { OneBlockBack(entries, blocks, i, prefix, bound, last); }
    }
    return Ok(last);
  }

  // ---- why one block back is enough ----

  lemma FilterKnowsPrefix(env: Env, r: Reader, entries: seq<Entry>, blocks: seq<seq<Entry>>, prefix: Bytes,
                          bound: Bytes)
    requires Serves(env, r, entries, blocks)
    ensures Probe(env, r.filter, prefix, 0).Ok?
    ensures !Probe(env, r.filter, prefix, 0).value ==> LatestBlob(entries, prefix, bound, None)
  {
    hide Reads, HasPosition, Position, Probe, Lex;
    ProbeIff(env, r.filter, prefix, 0);
    if !Probe(env, r.filter, prefix, 0).value {
      forall e | e in entries ensures !Candidate(e, prefix, bound) {
        assert |e.key| == ID_SIZE ==> e.key[..ID_SIZE] == e.key;
      }
      assert IsLatest(entries, prefix, bound, None);
    }
  }

  /** Between two keys with a common prefix every key has that prefix. */
  lemma {:induction false} PrefixBetween(p: Bytes, x: Bytes, y: Bytes, z: Bytes)
    requires |p| <= |x| && x[..|p|] == p && |p| <= |z| && z[..|p|] == p && LexLe(x, y) && LexLe(y, z)
    ensures |p| <= |y| && y[..|p|] == p
  {
    if p != [] {
      assert x[0] == x[..|p|][0] == p[0] && z[0] == z[..|p|][0] == p[0];
      assert y != [] && y[0] == p[0];
      assert x[1..][..|p| - 1] == x[..|p|][1..] == p[1..] && z[1..][..|p| - 1] == z[..|p|][1..] == p[1..];
      PrefixBetween(p[1..], x[1..], y[1..], z[1..]);
      assert y[..|p|] == [y[0]] + y[1..][..|p| - 1];
      assert p == [p[0]] + p[1..];
    }
  }

  /** The position the binary search gives: a block whose last key is the bound, or the first block that ends
      above it, or the last block when all end below it. */
  ghost predicate Chosen(blocks: seq<seq<Entry>>, i: nat, bound: Bytes, found: bool) {
    && i < |blocks|
    && (found ==> LastKey(blocks[i]) == bound)
    && (!found ==> (i > 0 ==> LexLess(LastKey(blocks[i - 1]), bound))
                   && (i < |blocks| - 1 ==> LexLess(bound, LastKey(blocks[i]))))
  }

  /** After the chosen block there is no better candidate than its last entry. */
  lemma NothingAfter(entries: seq<Entry>, blocks: seq<seq<Entry>>, i: nat, prefix: Bytes, bound: Bytes, found: bool,
                     e: Entry)
    requires Flatten(blocks) == entries && Sorted(entries, EntryLe) && NoneEmpty(blocks)
    requires Chosen(blocks, i, bound, found)
    requires e in Flatten(blocks[i + 1..]) && Candidate(e, prefix, bound)
    ensures found && e.key == bound
  {
    hide Lex, Sorted, EntryLe, Flatten;
    BlockBounds(entries, blocks, i);
    LexFlip(bound, e.key);
    LexEqual(bound, e.key);
    if !found && i < |blocks| - 1 {
      LexTransitive(bound, LastKey(blocks[i]), e.key);
      LexFlip(e.key, bound);
    } else if !found {
      NoBlocks(blocks, i + 1);
    } else {
      LexFlip(e.key, bound);
    }
  }

  lemma NoBlocks(blocks: seq<seq<Entry>>, i: nat)
    requires i == |blocks|
    ensures Flatten(blocks[i..]) == []
  {
  }

  lemma ChosenBySearch(blocks: seq<seq<Entry>>, keys: seq<Bytes>, i: nat, bound: Bytes, found: bool, insertion: nat)
    requires KeysSorted(keys) && |keys| == |blocks| && forall j :: 0 <= j < |keys| ==> keys[j] == LastKey(blocks[j])
    requires insertion <= |keys| && i < |blocks|
    requires i == (if !found && insertion >= |keys| then insertion - 1 else insertion)
    requires found ==> insertion < |keys| && keys[insertion] == bound
    requires !found ==> forall j :: 0 <= j < insertion ==> LexLess(keys[j], bound)
    requires !found ==> forall j :: insertion <= j < |keys| ==> LexLess(bound, keys[j])
    ensures Chosen(blocks, i, bound, found)
  {
    hide LexLess, LastKey;
  }

  /** No candidate from this block on, so the search did not hit the bound itself. */
  ghost predicate NoneFrom(blocks: seq<seq<Entry>>, i: nat, prefix: Bytes, bound: Bytes)
    requires i <= |blocks|
  {
    forall e :: e in Flatten(blocks[i..]) ==> !Candidate(e, prefix, bound)
  }

  lemma LastAtBound(block: seq<Entry>, prefix: Bytes, bound: Bytes)
    requires block != [] && LastKey(block) == bound && |bound| >= ID_SIZE && bound[..ID_SIZE] == prefix
    ensures block[|block| - 1] in block && Candidate(block[|block| - 1], prefix, bound)
  {
    LexEqual(bound, bound);
  }

  /** A candidate of the chosen block is the best of the whole table. */
  lemma FoundHere(entries: seq<Entry>, blocks: seq<seq<Entry>>, i: nat, prefix: Bytes, bound: Bytes, found: bool,
                  x: Entry)
    requires Flatten(blocks) == entries && Sorted(entries, EntryLe) && NoneEmpty(blocks)
    requires Chosen(blocks, i, bound, found)
    requires |bound| >= ID_SIZE && bound[..ID_SIZE] == prefix && IsLatest(blocks[i], prefix, bound, Some(x))
    ensures IsLatest(entries, prefix, bound, Some(x))
  {
    hide LexLe, LexLess, Lex, Sorted, EntryLe, Flatten, LastKey, Candidate, NoneEmpty;
    BlockBounds(entries, blocks, i);
    Around(blocks, i);
    NonEmptyAt(blocks, i);
    forall e | e in entries && Candidate(e, prefix, bound) ensures LexLe(e.key, x.key) {
      if e in Flatten(blocks[i + 1..]) {
        NothingAfter(entries, blocks, i, prefix, bound, found, e);
        LastAtBound(blocks[i], prefix, bound);
        LastKeyIs(blocks[i]);
      }
    }
  }

  lemma LastKeyIs(block: seq<Entry>)
    requires block != []
    ensures LastKey(block) == block[|block| - 1].key
  {
  }

  /** Without one, there is none from that block on, and the bound itself is not the last key of a block. */
  lemma NotHere(entries: seq<Entry>, blocks: seq<seq<Entry>>, i: nat, prefix: Bytes, bound: Bytes, found: bool)
    requires Flatten(blocks) == entries && Sorted(entries, EntryLe) && NoneEmpty(blocks)
    requires Chosen(blocks, i, bound, found)
    requires |bound| >= ID_SIZE && bound[..ID_SIZE] == prefix && IsLatest(blocks[i], prefix, bound, None)
    ensures NoneFrom(blocks, i, prefix, bound) && !found
  {
    hide LexLe, LexLess, Lex, Sorted, EntryLe, LastKey, Candidate, NoneEmpty;
    NonEmptyAt(blocks, i);
    if found {
      LastAtBound(blocks[i], prefix, bound);
    }
    assert blocks[i..][1..] == blocks[i + 1..];
    forall e | e in Flatten(blocks[i..]) ensures !Candidate(e, prefix, bound) {
      if e in Flatten(blocks[i + 1..]) && Candidate(e, prefix, bound) {
        NothingAfter(entries, blocks, i, prefix, bound, found, e);
      }
    }
  }

  lemma HereOrBefore(entries: seq<Entry>, blocks: seq<seq<Entry>>, i: nat, prefix: Bytes, bound: Bytes, found: bool,
                     last: Option<Entry>)
    requires Flatten(blocks) == entries && Sorted(entries, EntryLe) && NoneEmpty(blocks)
    requires Chosen(blocks, i, bound, found)
    requires |bound| >= ID_SIZE && bound[..ID_SIZE] == prefix && IsLatest(blocks[i], prefix, bound, last)
    ensures last.Some? || i == 0 ==> IsLatest(entries, prefix, bound, last)
    ensures last.None? ==> NoneFrom(blocks, i, prefix, bound) && !found
  {
    hide Chosen, Sorted, EntryLe, Flatten, NoneEmpty, Candidate, LexLe;
    if last.Some? {
      FoundHere(entries, blocks, i, prefix, bound, found, last.value);
    } else {
      NotHere(entries, blocks, i, prefix, bound, found);
      assert i == 0 ==> blocks[i..] == blocks;
    }
  }

  /** Every candidate lies at or below the last entry of the block before, which then is one too. */
  lemma CandidateBefore(entries: seq<Entry>, blocks: seq<seq<Entry>>, i: nat, prefix: Bytes, bound: Bytes, e: Entry)
    requires Flatten(blocks) == entries && Sorted(entries, EntryLe) && NoneEmpty(blocks) && 0 < i < |blocks|
    requires |bound| >= ID_SIZE && bound[..ID_SIZE] == prefix && LexLess(LastKey(blocks[i - 1]), bound)
    requires e in Flatten(blocks[..i]) && Candidate(e, prefix, bound)
    ensures blocks[i - 1] != []
    ensures var x := blocks[i - 1][|blocks[i - 1]| - 1]; Candidate(x, prefix, bound) && LexLe(e.key, x.key)
  {
    hide Lex, Sorted, EntryLe, Flatten, LastKey, NoneEmpty;
    NonEmptyAt(blocks, i - 1);
    LastKeyIs(blocks[i - 1]);
    assert blocks[..i - 1 + 1] == blocks[..i];
    UpToBlock(entries, blocks, i - 1);
    PrefixBetween(prefix, e.key, LastKey(blocks[i - 1]), bound);
  }

  /** So scanning that one block, when its last key passes the prefix test, finds the best of the whole table. */
  lemma OneBlockBack(entries: seq<Entry>, blocks: seq<seq<Entry>>, i: nat, prefix: Bytes, bound: Bytes,
                     last: Option<Entry>)
    requires Flatten(blocks) == entries && Sorted(entries, EntryLe) && NoneEmpty(blocks) && 0 < i < |blocks|
    requires |bound| >= ID_SIZE && bound[..ID_SIZE] == prefix && LexLess(LastKey(blocks[i - 1]), bound)
    requires NoneFrom(blocks, i, prefix, bound)
    requires var k := LastKey(blocks[i - 1]);
             if |k| >= ID_SIZE && LexLe(prefix, k[..ID_SIZE]) then IsLatest(blocks[i - 1], prefix, bound, last)
             else last == None
    ensures IsLatest(entries, prefix, bound, last)
  {
    hide Lex, LexLess, Sorted, EntryLe, Flatten, NoneEmpty;
    assert blocks == blocks[..i] + blocks[i..];
    FlattenAppend(blocks[..i], blocks[i..]);
    forall e | e in entries && Candidate(e, prefix, bound) ensures last.Some? && LexLe(e.key, last.value.key) {
      CandidateBefore(entries, blocks, i, prefix, bound, e);
      var x := blocks[i - 1][|blocks[i - 1]| - 1];
      assert x in blocks[i - 1];
      LexEqual(prefix, prefix);
      LexTransitive(e.key, x.key, last.value.key);
    }
    if last.Some? {
      InFlatten(blocks, last.value);
    }
  }

  // ---- documents ----

  /** The key of a version begins with the id and orders versions as numbers. */
  lemma VersionKeyIs(b: Blob, id: DocumentId, s: DocumentId)
    ensures VersionKey(b)[..ID_SIZE] == IdBytes(b.id)
    ensures VersionKey(b)[..ID_SIZE] == IdBytes(id) <==> b.id == id
    ensures b.id == id ==> Lex(VersionKey(b), IdBytes(id) + IdBytes(s)) == CompareInt(b.version, s)
  {
    hide Lex;
    LexIds(b.id, id);
    LexEqual(IdBytes(b.id), IdBytes(id));
    LexIds(b.version, s);
    LexConcat(IdBytes(b.id), IdBytes(id), IdBytes(b.version), IdBytes(s));
  }

  lemma CandidateShows(b: Blob, id: DocumentId, s: DocumentId)
    ensures Candidate(Entry(VersionKey(b), b), IdBytes(id), IdBytes(id) + IdBytes(s)) <==> Shows(b, id, s)
  {
    VersionKeyIs(b, id, s);
  }

  lemma InKeyed(blobs: seq<Blob>, e: Entry)
    ensures e in KeyedEntries(blobs, VersionKey) <==> e.blob in blobs && e.key == VersionKey(e.blob)
  {
    var keyed := Map(blobs, WithKey(VersionKey));
    InSort(keyed, EntryLe, e);
    if e in keyed {
      var i :| 0 <= i < |keyed| && keyed[i] == e;
      assert blobs[i] in blobs;
    }
    if e.blob in blobs && e.key == VersionKey(e.blob) {
      var i :| 0 <= i < |blobs| && blobs[i] == e.blob;
      assert keyed[i] == e;
    }
  }

  /** The candidate with the highest key is the version a reader at `s` sees. */
  lemma LatestIsVisible(blobs: seq<Blob>, id: DocumentId, s: DocumentId, r: Option<Blob>)
    requires Coherent(blobs) && LatestBlob(KeyedEntries(blobs, VersionKey), IdBytes(id), IdBytes(id) + IdBytes(s), r)
    ensures r == Visible(blobs, id, s)
  {
    hide Candidate, KeyedEntries, Visible, Lex, LexLe;
    var prefix, bound := IdBytes(id), IdBytes(id) + IdBytes(s);
    var best :| IsLatest(KeyedEntries(blobs, VersionKey), prefix, bound, best) && r == BlobOf(best);
    forall b | b in blobs && Shows(b, id, s)
      ensures Entry(VersionKey(b), b) in KeyedEntries(blobs, VersionKey)
      ensures Candidate(Entry(VersionKey(b), b), prefix, bound)
    {
      InKeyed(blobs, Entry(VersionKey(b), b));
      CandidateShows(b, id, s);
    }
    match best
    case None => NoneVisible(blobs, id, s);
    case Some(x) =>
      InKeyed(blobs, x);
      CandidateShows(x.blob, id, s);
      forall b | b in blobs && Shows(b, id, s) ensures b.version <= x.blob.version {
        VersionsOrdered(b, x.blob, id);
      }
      VisibleUnique(blobs, id, s, x.blob);
  }

  lemma NoneVisible(blobs: seq<Blob>, id: DocumentId, s: DocumentId)
    requires forall b :: b in blobs ==> !Shows(b, id, s)
    ensures Visible(blobs, id, s) == None
  {
  }

  lemma VersionsOrdered(b: Blob, x: Blob, id: DocumentId)
    requires b.id == id && x.id == id && LexLe(VersionKey(b), VersionKey(x))
    ensures b.version <= x.version
  {
    VersionKeyIs(b, id, x.version);
  }

  /** A point lookup in a table of versions gives exactly the highest version of the document not above the snapshot. */
  method GetByIdAt(env: Env, r: Reader, id: DocumentId, s: DocumentId, ghost blobs: seq<Blob>,
                   ghost blocks: seq<seq<Entry>>)
    returns (res: Result<Option<Blob>>)
    ensures Serves(env, r, KeyedEntries(blobs, VersionKey), blocks) && Coherent(blobs) ==>
            res == Ok(Visible(blobs, id, s))
  {
    hide Serves, Coherent, KeyedEntries, LatestBlob, Visible;
    res := GetLatestByPrefix(env, r, IdBytes(id), IdBytes(id) + IdBytes(s), KeyedEntries(blobs, VersionKey), blocks);
    if Serves(env, r, KeyedEntries(blobs, VersionKey), blocks) && Coherent(blobs) {
      LatestIsVisible(blobs, id, s, res.value);
    }
  }

  lemma {:induction false} AllOnes(width: nat)
    ensures BigEndian(Range(width) - 1, width) == seq(width, _ => 0xFF)
  {
    if width > 0 {
      AllOnes(width - 1);
      assert (Range(width) - 1) / 256 == Range(width - 1) - 1 && (Range(width) - 1) % 256 == 255;
    }
  }

  /** The lookup that tries the bare id first: in a table of versions it gives the newest version. */
  method GetById(env: Env, r: Reader, id: DocumentId, ghost blobs: seq<Blob>, ghost blocks: seq<seq<Entry>>)
    returns (res: Result<Option<Blob>>)
    ensures Serves(env, r, KeyedEntries(blobs, VersionKey), blocks) && Coherent(blobs) ==>
            res == Ok(Visible(blobs, id, MAX_ID))
  {
    hide Serves, Coherent, KeyedEntries, LatestBlob, Visible, BigEndian;
    ghost var entries := KeyedEntries(blobs, VersionKey);
    var direct := Get(env, r, IdBytes(id), entries, blocks);
    if direct.Err? || direct.value.Some? {
      if Serves(env, r, entries, blocks) { NoBareIds(blobs, id, direct.value); }
      return direct;
    }
    Ranges();
    AllOnes(16);
    res := GetLatestByPrefix(env, r, IdBytes(id), IdBytes(id) + seq(16, _ => 0xFF), entries, blocks);
    if Serves(env, r, entries, blocks) && Coherent(blobs) {
      LatestIsVisible(blobs, id, MAX_ID, res.value);
    }
  }

  lemma NoBareIds(blobs: seq<Blob>, id: DocumentId, r: Option<Blob>)
    requires FoundKey(KeyedEntries(blobs, VersionKey), IdBytes(id), r)
    ensures r == None
  {
    hide KeyedEntries;
    if r.Some? {
      InKeyed(blobs, Entry(IdBytes(id), r.value));
    }
  }

  /** The file keeps the versions in the order in which the engine holds a table's entries: by id, then version. */
  lemma VersionOrder(blobs: seq<Blob>)
    ensures KeyedEntries(blobs, VersionKey) == Map(Sort(blobs, KeyLe), WithKey(VersionKey))
  {
    hide Lex;
    forall x, y | x in blobs && y in blobs
      ensures KeyLe(x, y) == EntryLe(WithKey(VersionKey)(x), WithKey(VersionKey)(y))
    {
      KeyLeIs(x, y);
    }
    SortMap(blobs, WithKey(VersionKey), EntryLe, KeyLe);
  }

  lemma KeyLeIs(x: Blob, y: Blob)
    ensures KeyLe(x, y) <==> LexLe(VersionKey(x), VersionKey(y))
  {
    hide Lex;
    LexIds(x.id, y.id);
    LexIds(x.version, y.version);
    LexEqual(IdBytes(x.id), IdBytes(y.id));
    LexConcat(IdBytes(x.id), IdBytes(y.id), IdBytes(x.version), IdBytes(y.version));
  }

  /** The id at the front of a key; a shorter key gives the nil id. */
  function IdOfKey(key: Bytes): DocumentId { if |key| >= ID_SIZE then IdFromBytes(key[..ID_SIZE]) else 0 }

  /** The id range a table reports is the range of the ids it holds. */
  lemma IdRange(env: Env, blobs: seq<Blob>, blockSize: nat, data: Bytes)
    requires blobs != [] && Lossless(env) && Fits(env, KeyedEntries(blobs, VersionKey), blockSize)
    requires IsTable(env, KeyedEntries(blobs, VersionKey), blockSize, data)
    ensures Open(env, data).Ok?
    ensures var r := Open(env, data).value;
            && (forall b :: b in blobs ==> IdOfKey(r.minKey) <= b.id <= IdOfKey(r.maxKey))
            && (exists b :: b in blobs && b.id == IdOfKey(r.minKey))
            && exists b :: b in blobs && b.id == IdOfKey(r.maxKey)
  {
    hide Lossless, Fits, IsTable, Open, Serves, Sort, KeyedEntries, IdFromBytes, VersionKey, EntryLe, KeyLe;
    TableRoundTrip(env, blobs, VersionKey, blockSize, data);
    VersionOrder(blobs);
    SortedEnds(blobs);
    var sorted := Sort(blobs, KeyLe);
    KeyHasId(sorted[0]);
    KeyHasId(sorted[|sorted| - 1]);
  }

  /** Sorted by id and version, the first and the last blob bound the ids. */
  lemma SortedEnds(blobs: seq<Blob>)
    requires blobs != []
    ensures var sorted := Sort(blobs, KeyLe);
            && |sorted| == |blobs| && sorted[0] in blobs && sorted[|sorted| - 1] in blobs
            && forall b :: b in blobs ==> sorted[0].id <= b.id <= sorted[|sorted| - 1].id
  {
    hide Sort;
    SortMultiset(blobs, KeyLe);
    MergeLeTotal();
    SortSorted(blobs, KeyLe);
    var sorted := Sort(blobs, KeyLe);
    InSort(blobs, KeyLe, sorted[0]);
    InSort(blobs, KeyLe, sorted[|sorted| - 1]);
    forall b | b in blobs ensures sorted[0].id <= b.id <= sorted[|sorted| - 1].id {
      InSort(blobs, KeyLe, b);
      var i :| 0 <= i < |sorted| && sorted[i] == b;
      assert i > 0 ==> KeyLe(sorted[0], sorted[i]);
      assert i < |sorted| - 1 ==> KeyLe(sorted[i], sorted[|sorted| - 1]);
    }
  }

  lemma KeyHasId(b: Blob)
    ensures IdOfKey(VersionKey(b)) == b.id
  {
    IdRoundTrip(b.id);
    assert VersionKey(b)[..ID_SIZE] == IdBytes(b.id);
  }
}
