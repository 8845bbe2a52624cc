/** Writing a table (crates/ingodb-sstable/src/writer.rs:50-202). */
module TableWriter {
  import opened Prelude
  import opened Bytes
  import opened Blobs
  import opened Codec
  import opened Sorting
  import opened Bloom
  import opened TableFormat

  /** Writes the blobs in key order, cut into blocks of about `blockSize` bytes. */
  method Write(env: Env, blobs: seq<Blob>, key: Blob -> Bytes, blockSize: nat) returns (r: Result<Bytes>)
    ensures r == Err(EmptyTable) <==> blobs == []
    ensures blobs != [] ==> r.Ok? && IsTable(env, KeyedEntries(blobs, key), blockSize, r.value)
  {
    hide Data, IndexOf, End, Split, FilterBytes, IndexSection, Footer, Sort, FilterFor, LittleEndian;
    if blobs == [] {
      return Err(EmptyTable);
    }
    SortMultiset(Map(blobs, WithKey(key)), EntryLe);
    var keyed := KeyedEntries(blobs, key);
    var out, index, bloom := WriteBlocks(env, keyed, blockSize);
    ghost var blocks, f := Split(env, keyed, blockSize), bloom.Contents();
    LastEnd(env, blocks, 0);
    var filterOffset := if index == [] then 0 else index[|index| - 1].offset + index[|index| - 1].size;
    var filterSize := bloom.bits.Length % U32_RANGE + 4 + 4;
    out := out + (LittleEndian(bloom.numBits, 4) + LittleEndian(bloom.numHashes, 4) + bloom.bits[..]);
    var indexOffset := filterOffset + filterSize;
    var section := WriteIndex(index);
    out := out + section;
    out := out + Footer(indexOffset, |index|, filterOffset, filterSize);
    assert FilterBytes(f) == LittleEndian(bloom.numBits, 4) + LittleEndian(bloom.numHashes, 4) + bloom.bits[..] by {
      FilterBytesAre(f);
    }
    assert out == TableBytes(env, blocks, f);
    return Ok(out);
  }

  lemma FilterBytesAre(f: BloomData)
    ensures FilterBytes(f) == LittleEndian(f.numBits, 4) + LittleEndian(f.numHashes, 4) + f.bits
  {
  }

  /** The end of the data is where the last block ends. */
  lemma {:induction false} LastEnd(env: Env, blocks: seq<seq<Entry>>, offset: nat)
    ensures End(env, blocks, offset) ==
            if blocks == [] then offset
            else var last := IndexOf(env, blocks, offset)[|blocks| - 1]; last.offset + last.size
  {
    hide StoredSize, LastKey;
    if blocks != [] {
      LastEnd(env, blocks[1..], offset + StoredSize(env, blocks[0]));
    }
  }

  method WriteIndex(index: seq<BlockIndex>) returns (out: Bytes)
    ensures out == IndexSection(index)
  {
    hide IndexEntryBytes, IndexSection;
    out := [];
    assert out + IndexSection(index) == IndexSection(index) && index[0..] == index;
    for i := 0 to |index|
      invariant out + IndexSection(index[i..]) == IndexSection(index)
    {
      IndexStep(out, index, i);
      var entry := WriteIndexEntry(index[i]);
      out := out + entry;
    }
    IndexEnd(out, index);
  }

  method WriteIndexEntry(x: BlockIndex) returns (out: Bytes)
    ensures out == IndexEntryBytes(x)
  {
    hide LittleEndian;
    out := LittleEndian(|x.lastKey|, 2);
    out := out + x.lastKey;
    out := out + LittleEndian(x.offset, 8);
    out := out + LittleEndian(x.size, 4);
  }

  lemma IndexStep(out: Bytes, index: seq<BlockIndex>, i: nat)
    requires i < |index|
    ensures out + IndexSection(index[i..]) == (out + IndexEntryBytes(index[i])) + IndexSection(index[i + 1..])
  {
    hide IndexEntryBytes;
    assert index[i..][1..] == index[i + 1..];
  }

  lemma IndexEnd(out: Bytes, index: seq<BlockIndex>)
    ensures out + IndexSection(index[|index|..]) == out
  {
  }

  // ---- blocks ----

  /** The block under construction: a count to be patched, then its entries. */
  ghost predicate Building(env: Env, currentBlock: Bytes, count: nat, lastKey: Bytes, current: seq<Entry>) {
    && |currentBlock| == 4 + |RowsBytes(env, current)| && currentBlock[4..] == RowsBytes(env, current)
    && count == |current| && (current != [] ==> lastKey == LastKey(current))
  }

  /** The blocks written so far. */
  ghost predicate Written(env: Env, out: Bytes, index: seq<BlockIndex>, fileOffset: nat, done: seq<seq<Entry>>) {
    out == Data(env, done) && index == IndexOf(env, done, 0) && fileOffset == End(env, done, 0)
  }

  method WriteBlocks(env: Env, keyed: seq<Entry>, blockSize: nat)
    returns (out: Bytes, index: seq<BlockIndex>, bloom: BloomFilter)
    ensures fresh(bloom) && fresh(bloom.bits) && FilterFor(env, keyed, bloom.Contents())
    ensures var blocks := Split(env, keyed, blockSize); out == Data(env, blocks) && index == IndexOf(env, blocks, 0)
  {
    hide Building, Written, SplitFrom, LastKey, LittleEndian, Serialize, RowsBytes, RowBytes, Stored, StoredSize,
         Data, IndexOf, End, PartFilter, FilterFor;
    out, index := [], [];
    bloom := new BloomFilter(|keyed|);
    StartFilter(env, keyed, bloom.Contents());
    var currentBlock, count, fileOffset, lastKey := LittleEndian(0, 4), 0, 0, [];
    ghost var done: seq<seq<Entry>>, current: seq<Entry> := [], [];
    StartBuilding(env, currentBlock, lastKey);
    StartWritten(env);
    assert keyed[0..] == keyed;
    for i := 0 to |keyed|
      invariant fresh(bloom.bits) && PartFilter(env, keyed, i, bloom.Contents())
      invariant Building(env, currentBlock, count, lastKey, current) && count == |current|
      invariant Written(env, out, index, fileOffset, done)
      invariant done + SplitFrom(env, current, keyed[i..], blockSize) == Split(env, keyed, blockSize)
    {
      var e := keyed[i];
      AddKeys(env, bloom, e, keyed, i);
      var bytes := Serialize(env, e.blob);
      var entrySize := 2 + |e.key| + 4 + |bytes|;
      SplitNext(env, done, current, keyed, i, blockSize);
      BuildingSize(env, currentBlock, count, lastKey, current, e);
      if count > 0 && |currentBlock| + entrySize > blockSize {
        var offset, size, written := FlushBlock(env, currentBlock, count, fileOffset, lastKey, current);
        WrittenNext(env, out, index, fileOffset, done, lastKey, current);
        out := out + written;
        index := index + [BlockIndex(lastKey, offset, size)];
        fileOffset := offset + size;
        done := done + [current];
        currentBlock, count, current := LittleEndian(0, 4), 0, [];
        StartBuilding(env, currentBlock, lastKey);
      }
      BuildingNext(env, currentBlock, count, lastKey, current, e);
      currentBlock := currentBlock
        + (LittleEndian(|e.key|, 2) + e.key + LittleEndian(|bytes|, 4) + bytes);
      lastKey := e.key;
      count := count + 1;
      current := current + [e];
    }
    SplitEnd(env, done, current, keyed, blockSize);
    if count > 0 {
      var offset, size, written := FlushBlock(env, currentBlock, count, fileOffset, lastKey, current);
      WrittenNext(env, out, index, fileOffset, done, lastKey, current);
      out := out + written;
      index := index + [BlockIndex(lastKey, offset, size)];
      done := done + [current];
    }
    FilterDone(env, keyed, bloom.Contents());
    WrittenIs(env, out, index, done);
  }

  /** Patches the entry count, compresses, and puts the checksum in front. */
  method FlushBlock(env: Env, currentBlock: Bytes, count: nat, fileOffset: nat, ghost lastKey: Bytes,
                    ghost current: seq<Entry>)
    returns (offset: nat, size: nat, written: Bytes)
    requires Building(env, currentBlock, count, lastKey, current)
    ensures offset == fileOffset && size == StoredSize(env, current) && written == Stored(env, current)
    ensures current != [] ==> lastKey == LastKey(current)
  {
    var data := LittleEndian(count, 4) + currentBlock[4..];
    assert data == RawBlock(env, current);
    var compressed := env.compress(data);
    written := LittleEndian(env.crc32(compressed), 4) + compressed;
    offset, size := fileOffset, (4 + |compressed|) % U32_RANGE;
  }

  lemma StartBuilding(env: Env, currentBlock: Bytes, lastKey: Bytes)
    requires |currentBlock| == 4
    ensures Building(env, currentBlock, 0, lastKey, [])
  {
  }

  lemma BuildingSize(env: Env, currentBlock: Bytes, count: nat, lastKey: Bytes, current: seq<Entry>, e: Entry)
    requires Building(env, currentBlock, count, lastKey, current)
    ensures |currentBlock| == 4 + |RowsBytes(env, current)|
    ensures |RowBytes(env, e)| == 2 + |e.key| + 4 + |Serialize(env, e.blob)|
  {
  }

  lemma BuildingNext(env: Env, currentBlock: Bytes, count: nat, lastKey: Bytes, current: seq<Entry>, e: Entry)
    requires Building(env, currentBlock, count, lastKey, current)
    ensures var bytes := Serialize(env, e.blob);
            Building(env, currentBlock + (LittleEndian(|e.key|, 2) + e.key + LittleEndian(|bytes|, 4) + bytes),
                     count + 1,
                     e.key, current + [e])
  {
    hide RowsBytes, Serialize;
    RowsAppend(env, current, e);
    assert (currentBlock + RowBytes(env, e))[4..] == currentBlock[4..] + RowBytes(env, e);
  }

  lemma StartWritten(env: Env)
    ensures Written(env, [], [], 0, [])
  {
  }

  lemma WrittenNext(env: Env, out: Bytes, index: seq<BlockIndex>, fileOffset: nat, done: seq<seq<Entry>>,
                    lastKey: Bytes, current: seq<Entry>)
    requires Written(env, out, index, fileOffset, done) && current != [] && lastKey == LastKey(current)
    ensures Written(env, out + Stored(env, current),
                    index + [BlockIndex(lastKey, fileOffset, StoredSize(env, current))],
                    fileOffset + StoredSize(env, current), done + [current])
  {
    BlocksAppend(env, done, current, 0);
  }

  lemma WrittenIs(env: Env, out: Bytes, index: seq<BlockIndex>, done: seq<seq<Entry>>)
    requires exists fileOffset :: Written(env, out, index, fileOffset, done)
    ensures out == Data(env, done) && index == IndexOf(env, done, 0)
  {
  }

  /** One entry further: either the block is closed first, or it grows. */
  lemma SplitNext(env: Env, done: seq<seq<Entry>>, current: seq<Entry>, keyed: seq<Entry>, i: nat, blockSize: nat)
    requires i < |keyed|
    ensures done + SplitFrom(env, current, keyed[i..], blockSize) ==
            if current != [] && 4 + |RowsBytes(env, current)| + |RowBytes(env, keyed[i])| > blockSize then
              (done + [current]) + SplitFrom(env, [] + [keyed[i]], keyed[i + 1..], blockSize)
            else done + SplitFrom(env, current + [keyed[i]], keyed[i + 1..], blockSize)
  {
    hide RowsBytes, RowBytes;
    assert keyed[i..][1..] == keyed[i + 1..];
    assert [] + [keyed[i]] == [keyed[i]];
  }

  lemma SplitEnd(env: Env, done: seq<seq<Entry>>, current: seq<Entry>, keyed: seq<Entry>, blockSize: nat)
    ensures done + SplitFrom(env, current, keyed[|keyed|..], blockSize) ==
            if current == [] then done else done + [current]
  {
    assert done + [] == done;
  }

  // ---- the filter ----

  ghost predicate PartFilter(env: Env, keyed: seq<Entry>, i: nat, f: BloomData)
    requires i <= |keyed|
  {
    && f.numBits == NumBits(|keyed|) && f.numHashes == NUM_HASHES && |f.bits| == (f.numBits + 7) / 8
    && Sized(f) && Holds(env, f, FilterKeys(keyed[..i]))
  }

  lemma StartFilter(env: Env, keyed: seq<Entry>, f: BloomData)
    requires f.numBits == NumBits(|keyed|) && f.numHashes == NUM_HASHES && |f.bits| == (f.numBits + 7) / 8
    requires Sized(f) && forall p :: 0 <= p < f.numBits ==> !HasPosition(f.bits, p)
    ensures PartFilter(env, keyed, 0, f)
  {
    HoldsNothing(env, f);
    assert keyed[..0] == [];
  }

  lemma FilterDone(env: Env, keyed: seq<Entry>, f: BloomData)
    requires PartFilter(env, keyed, |keyed|, f)
    ensures FilterFor(env, keyed, f)
  {
    hide Holds, FilterKeys;
    assert keyed[..|keyed|] == keyed;
  }

  lemma FilterNext(keyed: seq<Entry>, i: nat)
    requires i < |keyed|
    ensures FilterKeys(keyed[..i + 1]) == FilterKeys(keyed[..i]) + EntryKeys(keyed[i])
  {
    assert keyed[..i + 1][..i] == keyed[..i];
  }

  /** Tells the filter of one entry. */
  method AddKeys(env: Env, bloom: BloomFilter, e: Entry, ghost keyed: seq<Entry>, ghost i: nat)
    requires i < |keyed| && e == keyed[i] && PartFilter(env, keyed, i, bloom.Contents())
    modifies bloom.bits
    ensures PartFilter(env, keyed, i + 1, bloom.Contents())
  {
    hide Holds, Hits, FilterKeys, HasPosition, NumBits;
    FilterNext(keyed, i);
    ghost var before, keys := bloom.Contents(), FilterKeys(keyed[..i]);
    bloom.Insert(env, e.key);
    ghost var after := bloom.Contents();
    HoldsNext(env, before, keys, e.key, after);
    if |e.key| > 16 {
      bloom.Insert(env, e.key[..16]);
      HoldsNext(env, after, keys + [e.key], e.key[..16], bloom.Contents());
      assert keys + EntryKeys(e) == keys + [e.key] + [e.key[..16]];
    }
  }
}
