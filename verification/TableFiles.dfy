/** What a writer wrote a reader finds: block offsets, filter size and footer line up for every block size
    (crates/ingodb-sstable/src/writer.rs:50-176, crates/ingodb-sstable/src/reader.rs:32-137, 290-297, 364-428). */
module TableFiles {
  import opened Prelude
  import opened Bytes
  import opened Values
  import opened Blobs
  import opened Codec
  import opened Sorting
  import opened Bloom
  import opened TableFormat
  import opened TableReader

  /** Decompression undoes compression. */
  ghost predicate Lossless(env: Env) { forall raw: Bytes :: env.decompress(env.compress(raw)) == Some(raw) }

  ghost predicate RowFits(env: Env, e: Entry) {
    |e.key| < 0x1_0000 && Encodable(env, e.blob) && |Serialize(env, e.blob)| < U32_RANGE
  }

  ghost predicate RowsFit(env: Env, es: seq<Entry>) { forall e :: e in es ==> RowFits(env, e) }

  ghost predicate BlockFits(env: Env, block: seq<Entry>) {
    RowsFit(env, block) && block != [] && |block| < U32_RANGE && |Stored(env, block)| < U32_RANGE
  }

  ghost predicate BlocksFit(env: Env, blocks: seq<seq<Entry>>) {
    forall i :: 0 <= i < |blocks| ==> BlockFits(env, blocks[i])
  }

  /** Every length is small enough for the field it is written to. */
  ghost predicate Fits(env: Env, entries: seq<Entry>, blockSize: nat) {
    && RowsFit(env, entries) && BITS_PER_KEY * |entries| + 64 < U32_RANGE
    && (forall block :: block in Split(env, entries, blockSize) ==> |Stored(env, block)| < U32_RANGE)
    && |Data(env, Split(env, entries, blockSize))| < 0x1_0000_0000_0000
  }

  // ---- rows and blocks ----

  lemma ReadWritten16(buf: Bytes, at: nat, n: nat)
    requires n < 0x1_0000 && Has(buf, at, LittleEndian(n, 2))
    ensures ReadU16(buf, at) == n
  {
    Ranges();
    LittleEndianRoundTrip(n, 2);
  }

  lemma RowBack(env: Env, raw: Bytes, pos: nat, e: Entry)
    requires RowFits(env, e) && Has(raw, pos, RowBytes(env, e))
    ensures ReadRow(env, raw, pos) == Ok((e, pos + |RowBytes(env, e)|))
  {
    hide Serialize, Encodable, DecodeBlob, LittleEndian, FromLittleEndian, ReadU32;
    var bytes := Serialize(env, e.blob);
    var a, b, c := LittleEndian(|e.key|, 2), e.key, LittleEndian(|bytes|, 4);
    assert RowBytes(env, e) == a + b + c + bytes;
    HasSplit(raw, pos, a + b + c, bytes);
    HasSplit(raw, pos, a + b, c);
    HasSplit(raw, pos, a, b);
    ReadWritten16(raw, pos, |e.key|);
    ReadWritten32(raw, pos + 2 + |b|, |bytes|);
    DecodeSerialized(env, e.blob);
  }

  lemma {:induction false} RowsBack(env: Env, raw: Bytes, pos: nat, es: seq<Entry>)
    requires RowsFit(env, es) && Has(raw, pos, RowsBytes(env, es))
    ensures ReadRows(env, raw, pos, |es|) == Ok(es)
    decreases |es|
  {
    hide RowFits, RowBytes, ReadRow;
    if es != [] {
      assert es == [es[0]] + es[1..];
      HasSplit(raw, pos, RowBytes(env, es[0]), RowsBytes(env, es[1..]));
      RowBack(env, raw, pos, es[0]);
      RowsBack(env, raw, pos + |RowBytes(env, es[0])|, es[1..]);
    }
  }

  lemma StoredBack(env: Env, data: Bytes, x: BlockIndex, block: seq<Entry>)
    requires Lossless(env) && Has(data, x.offset, Stored(env, block)) && x.size == |Stored(env, block)|
    ensures ReadStored(env, data, x) == Ok(RawBlock(env, block))
  {
    hide RawBlock, LittleEndian, FromLittleEndian;
    var c := env.compress(RawBlock(env, block));
    HasSplit(data, x.offset, LittleEndian(env.crc32(c), 4), c);
    ReadWritten32(data, x.offset, env.crc32(c));
  }

  /** A block is read back entry by entry, and its first key without reading the rest. */
  lemma BlockBack(env: Env, data: Bytes, x: BlockIndex, block: seq<Entry>)
    requires Lossless(env) && BlockFits(env, block) && Has(data, x.offset, Stored(env, block))
    requires x.size == |Stored(env, block)|
    ensures ReadBlock(env, data, x) == Ok(block)
    ensures FirstKey(env, data, x) == Ok(block[0].key)
  {
    hide Stored, ReadStored, LittleEndian, FromLittleEndian, RowsBytes, RowBytes, RowFits, ReadRows, Lossless;
    var raw := RawBlock(env, block);
    StoredBack(env, data, x, block);
    HasSplit(raw, 0, LittleEndian(|block|, 4), RowsBytes(env, block));
    assert raw[0..|raw|] == raw;
    ReadWritten32(raw, 0, |block|);
    RowsBack(env, raw, 4, block);
    FirstRow(env, raw, block);
  }

  lemma FirstRow(env: Env, raw: Bytes, block: seq<Entry>)
    requires block != [] && RowFits(env, block[0]) && Has(raw, 4, RowsBytes(env, block))
    ensures |raw| >= 6 && |raw| >= 6 + ReadU16(raw, 4) && raw[6..6 + ReadU16(raw, 4)] == block[0].key
  {
    hide Serialize, LittleEndian, FromLittleEndian, Encodable;
    var e, bytes := block[0], Serialize(env, block[0].blob);
    var a, b := LittleEndian(|e.key|, 2), e.key;
    HasSplit(raw, 4, RowBytes(env, e), RowsBytes(env, block[1..]));
    assert RowBytes(env, e) == a + b + (LittleEndian(|bytes|, 4) + bytes);
    HasSplit(raw, 4, a + b, LittleEndian(|bytes|, 4) + bytes);
    HasSplit(raw, 4, a, b);
    ReadWritten16(raw, 4, |e.key|);
  }

  // ---- sections ----

  lemma {:induction false} EndIs(env: Env, blocks: seq<seq<Entry>>, offset: nat)
    requires BlocksFit(env, blocks)
    ensures End(env, blocks, offset) == offset + |Data(env, blocks)|
  {
    hide BlockFits, Stored;
    if blocks != [] {
      OneFits(env, blocks);
      EndIs(env, blocks[1..], offset + StoredSize(env, blocks[0]));
    }
  }

  lemma OneFits(env: Env, blocks: seq<seq<Entry>>)
    requires BlocksFit(env, blocks) && blocks != []
    ensures BlocksFit(env, blocks[1..]) && BlockFits(env, blocks[0])
    ensures StoredSize(env, blocks[0]) == |Stored(env, blocks[0])|
  {
    hide Stored, RowsFit;
  }

  /** Each block lies where the index says. */
  lemma {:induction false} DataBack(env: Env, data: Bytes, blocks: seq<seq<Entry>>, offset: nat, i: nat)
    requires BlocksFit(env, blocks) && Has(data, offset, Data(env, blocks)) && i < |blocks|
    ensures var x := IndexOf(env, blocks, offset)[i];
            && Has(data, x.offset, Stored(env, blocks[i])) && x.size == |Stored(env, blocks[i])|
            && x.offset + x.size <= offset + |Data(env, blocks)|
  {
    hide BlockFits, Stored, StoredSize, LastKey;
    OneFits(env, blocks);
    HasSplit(data, offset, Stored(env, blocks[0]), Data(env, blocks[1..]));
    if i > 0 {
      DataBack(env, data, blocks[1..], offset + |Stored(env, blocks[0])|, i - 1);
    }
  }

  ghost predicate IndexEntryFits(x: BlockIndex) {
    |x.lastKey| < 0x1_0000 && x.offset < 0x1_0000_0000_0000_0000 && x.size < U32_RANGE
  }

  lemma IndexEntryBack(data: Bytes, pos: nat, x: BlockIndex, limit: nat)
    requires IndexEntryFits(x) && Has(data, pos, IndexEntryBytes(x)) && pos + |IndexEntryBytes(x)| <= limit <= |data|
    ensures ReadIndexEntry(data, pos, limit) == Ok((x, pos + |IndexEntryBytes(x)|))
  {
    hide LittleEndian, FromLittleEndian;
    var a, b, c, d := LittleEndian(|x.lastKey|, 2), x.lastKey, LittleEndian(x.offset, 8), LittleEndian(x.size, 4);
    HasSplit(data, pos, a + b + c, d);
    HasSplit(data, pos, a + b, c);
    HasSplit(data, pos, a, b);
    ReadWritten16(data, pos, |b|);
    ReadWritten64(data, pos + 2 + |b|, x.offset);
    ReadWritten32(data, pos + 10 + |b|, x.size);
  }

  lemma {:induction false} IndexBack(data: Bytes, pos: nat, xs: seq<BlockIndex>, limit: nat)
    requires (forall x :: x in xs ==> IndexEntryFits(x)) && Has(data, pos, IndexSection(xs))
    requires pos + |IndexSection(xs)| <= limit <= |data|
    ensures ReadIndexSection(data, pos, |xs|, limit) == Ok(xs)
    decreases |xs|
  {
    hide IndexEntryFits, IndexEntryBytes, ReadIndexEntry;
    if xs != [] {
      assert xs == [xs[0]] + xs[1..];
      HasSplit(data, pos, IndexEntryBytes(xs[0]), IndexSection(xs[1..]));
      IndexEntryBack(data, pos, xs[0], limit);
      IndexBack(data, pos + |IndexEntryBytes(xs[0])|, xs[1..], limit);
    }
  }

  lemma FilterBack(data: Bytes, offset: nat, f: BloomData)
    requires Has(data, offset, FilterBytes(f)) && f.numBits < U32_RANGE && f.numHashes < U32_RANGE
    requires |f.bits| + 8 < U32_RANGE
    ensures ReadFilter(data, offset, FilterSize(f)) == Ok(f)
  {
    hide LittleEndian, FromLittleEndian;
    HasSplit(data, offset, LittleEndian(f.numBits, 4) + LittleEndian(f.numHashes, 4), f.bits);
    HasSplit(data, offset, LittleEndian(f.numBits, 4), LittleEndian(f.numHashes, 4));
    ReadWritten32(data, offset, f.numBits);
    ReadWritten32(data, offset + 4, f.numHashes);
  }

  lemma FooterBack(data: Bytes, at: nat, indexOffset: nat, count: nat, filterOffset: nat, filterSize: nat)
    requires Has(data, at, Footer(indexOffset, count, filterOffset, filterSize))
    requires indexOffset < 0x1_0000_0000_0000_0000 && filterOffset < 0x1_0000_0000_0000_0000
    requires count < U32_RANGE && filterSize < U32_RANGE
    ensures at + FOOTER_SIZE <= |data|
    ensures ReadU64(data, at) == indexOffset && ReadU32(data, at + 8) == count
    ensures ReadU64(data, at + 12) == filterOffset && ReadU32(data, at + 20) == filterSize
    ensures data[at + 24..at + 28] == TABLE_MAGIC && ReadU16(data, at + 28) == TABLE_VERSION
  {
    hide LittleEndian, FromLittleEndian;
    var a, b, c, d, v := LittleEndian(indexOffset, 8), LittleEndian(count, 4), LittleEndian(filterOffset, 8),
      LittleEndian(filterSize, 4), LittleEndian(TABLE_VERSION, 2);
    HasSplit(data, at, a + b + c + d + TABLE_MAGIC, v);
    HasSplit(data, at, a + b + c + d, TABLE_MAGIC);
    HasSplit(data, at, a + b + c, d);
    HasSplit(data, at, a + b, c);
    HasSplit(data, at, a, b);
    ReadWritten64(data, at, indexOffset);
    ReadWritten32(data, at + 8, count);
    ReadWritten64(data, at + 12, filterOffset);
    ReadWritten32(data, at + 20, filterSize);
    ReadWritten16(data, at + 28, TABLE_VERSION);
  }

  // ---- the whole file ----

  /** An open table that reads as these blocks. */
  ghost predicate Reads(env: Env, r: Reader, blocks: seq<seq<Entry>>) {
    && blocks != [] && NoneEmpty(blocks) && |r.index| == |blocks|
    && forall i :: 0 <= i < |blocks| ==>
         ReadBlock(env, r.data, r.index[i]) == Ok(blocks[i]) && r.index[i].lastKey == LastKey(blocks[i])
  }

  /** The filter admits every key, and the id part of every longer one. */
  ghost predicate Admits(env: Env, f: BloomData, entries: seq<Entry>) {
    forall e :: e in entries ==>
      Probe(env, f, e.key, 0) == Ok(true) && (|e.key| > 16 ==> Probe(env, f, e.key[..16], 0) == Ok(true))
  }

  /** An open table holding exactly these entries, in key order. */
  ghost predicate Serves(env: Env, r: Reader, entries: seq<Entry>, blocks: seq<seq<Entry>>) {
    Reads(env, r, blocks) && Flatten(blocks) == entries && Sorted(entries, EntryLe) && Sized(r.filter) &&
      Admits(env, r.filter, entries)
  }

  /** Sections of a file, one after the other. */
  lemma Sections(data: Bytes, a: Bytes, b: Bytes, c: Bytes, d: Bytes)
    requires data == a + b + c + d
    ensures Has(data, 0, a) && Has(data, |a|, b) && Has(data, |a + b|, c) && Has(data, |a + b + c|, d)
  {
  }

  lemma BlocksOfEntriesFit(env: Env, entries: seq<Entry>, blockSize: nat)
    requires Fits(env, entries, blockSize)
    ensures BlocksFit(env, Split(env, entries, blockSize)) && NoneEmpty(Split(env, entries, blockSize))
    ensures |Split(env, entries, blockSize)| <= |entries|
    ensures Flatten(Split(env, entries, blockSize)) == entries
  {
    hide Stored, RowFits, SplitFrom, Data;
    var blocks := Split(env, entries, blockSize);
    SplitWhole(env, [], entries, blockSize);
    assert [] + entries == entries;
    forall i | 0 <= i < |blocks| ensures BlockFits(env, blocks[i]) {
      assert blocks[i] in blocks;
      PartOfFlatten(blocks, i);
      forall e | e in blocks[i] ensures RowFits(env, e) { InFlatten(blocks, e); }
    }
    AtMostAsMany(blocks);
  }

  lemma {:induction false} PartOfFlatten(blocks: seq<seq<Entry>>, i: nat)
    requires i < |blocks|
    ensures |blocks[i]| <= |Flatten(blocks)|
  {
    if i > 0 { PartOfFlatten(blocks[1..], i - 1); }
  }

  lemma {:induction false} AtMostAsMany(blocks: seq<seq<Entry>>)
    requires NoneEmpty(blocks)
    ensures |blocks| <= |Flatten(blocks)|
  {
    if blocks != [] {
      assert blocks[0] != [];
      AtMostAsMany(blocks[1..]);
    }
  }

  /** Opening a written table gives its index, filter, and first and last keys. */
  lemma OpenBack(env: Env, blocks: seq<seq<Entry>>, f: BloomData)
    requires Lossless(env) && blocks != [] && BlocksFit(env, blocks) && |blocks| < U32_RANGE
    requires |Data(env, blocks)| < 0x1_0000_0000_0000
    requires f.numBits < U32_RANGE && f.numHashes < U32_RANGE && |f.bits| + 8 < U32_RANGE
    ensures var data := TableBytes(env, blocks, f);
            Open(env, data) ==
              Ok(Reader(data, IndexOf(env, blocks, 0), f, blocks[0][0].key, LastKey(blocks[|blocks| - 1])))
    ensures Reads(env, Reader(TableBytes(env, blocks, f), IndexOf(env, blocks, 0), f, blocks[0][0].key,
                              LastKey(blocks[|blocks| - 1])), blocks)
  {
    hide Lossless, BlockFits, Data, Stored, FilterBytes, IndexSection, Footer, ReadIndexSection, ReadFilter, FirstKey,
         IndexOf, End, ReadBlock, FromLittleEndian, LastKey, IndexEntryFits;
    var data, index, end := TableBytes(env, blocks, f), IndexOf(env, blocks, 0), End(env, blocks, 0);
    var filter, section := FilterBytes(f), IndexSection(index);
    var footer := Footer(end + FilterSize(f), |blocks|, end, FilterSize(f));
    BlocksNotEmpty(env, blocks);
    Sections(data, Data(env, blocks), filter, section, footer);
    EndIs(env, blocks, 0);
    FilterLength(f);
    FooterBack(data, |data| - FOOTER_SIZE, end + FilterSize(f), |blocks|, end, FilterSize(f));
    FilterBack(data, end, f);
    forall i | 0 <= i < |blocks|
      ensures ReadBlock(env, data, index[i]) == Ok(blocks[i]) && FirstKey(env, data, index[i]) == Ok(blocks[i][0].key)
      ensures IndexEntryFits(index[i])
    {
      BlockIs(env, data, blocks, i);
    }
    IndexBack(data, end + FilterSize(f), index, |data| - FOOTER_SIZE);
  }

  lemma BlocksNotEmpty(env: Env, blocks: seq<seq<Entry>>)
    requires BlocksFit(env, blocks)
    ensures NoneEmpty(blocks)
  {
    hide Stored, RowsFit;
  }

  lemma FilterLength(f: BloomData)
    requires |f.bits| < U32_RANGE
    ensures |FilterBytes(f)| == FilterSize(f)
  {
  }

  lemma BlockIs(env: Env, data: Bytes, blocks: seq<seq<Entry>>, i: nat)
    requires Lossless(env) && BlocksFit(env, blocks) && Has(data, 0, Data(env, blocks)) && i < |blocks|
    requires |Data(env, blocks)| < 0x1_0000_0000_0000
    ensures blocks[i] != []
    ensures var x := IndexOf(env, blocks, 0)[i];
            ReadBlock(env, data, x) == Ok(blocks[i]) && FirstKey(env, data, x) == Ok(blocks[i][0].key) &&
              IndexEntryFits(x)
  {
    hide Lossless, Stored, RowFits, Data, ReadBlock, FirstKey, IndexOf;
    assert BlockFits(env, blocks[i]);
    DataBack(env, data, blocks, 0, i);
    BlockBack(env, data, IndexOf(env, blocks, 0)[i], blocks[i]);
    assert blocks[i][|blocks[i]| - 1] in blocks[i];
    assert RowFits(env, blocks[i][|blocks[i]| - 1]);
    RowKeyFits(env, blocks[i][|blocks[i]| - 1]);
  }

  lemma RowKeyFits(env: Env, e: Entry)
    requires RowFits(env, e)
    ensures |e.key| < 0x1_0000
  {
  }

  /** The round trip: a table written from any blobs, with any block size, opens; its first and last keys are those of
      the sorted entries; its blocks read back as exactly the sorted entries; and its filter admits all their keys. */
  lemma TableRoundTrip(env: Env, blobs: seq<Blob>, key: Blob -> Bytes, blockSize: nat, data: Bytes)
    requires blobs != [] && Lossless(env) && Fits(env, KeyedEntries(blobs, key), blockSize)
    requires IsTable(env, KeyedEntries(blobs, key), blockSize, data)
    ensures var entries := KeyedEntries(blobs, key);
            && |entries| == |blobs| && Open(env, data).Ok?
            && Serves(env, Open(env, data).value, entries, Split(env, entries, blockSize))
            && Open(env, data).value.minKey == entries[0].key
            && Open(env, data).value.maxKey == entries[|entries| - 1].key
  {
    hide Lossless, TableBytes, Holds, FilterKeys, Probe, Open, Data, RowsFit, Stored, SplitFrom, Reads, Sort;
    var entries := KeyedEntries(blobs, key);
    SortMultiset(Map(blobs, WithKey(key)), EntryLe);
    EntryLeTotal();
    SortSorted(Map(blobs, WithKey(key)), EntryLe);
    var blocks := Split(env, entries, blockSize);
    BlocksOfEntriesFit(env, entries, blockSize);
    var f :| FilterFor(env, entries, f) && data == TableBytes(env, blocks, f);
    assert Flatten<Entry>([]) == [];
    OpenBack(env, blocks, f);
    FilterAdmits(env, entries, f);
    EndsOfFlatten(blocks);
  }

  lemma FilterAdmits(env: Env, entries: seq<Entry>, f: BloomData)
    requires FilterFor(env, entries, f)
    ensures Admits(env, f, entries) && Sized(f)
  {
    hide Probe, HasPosition, SetBy;
    forall e | e in entries
      ensures Probe(env, f, e.key, 0) == Ok(true) && (|e.key| > 16 ==> Probe(env, f, e.key[..16], 0) == Ok(true))
    {
      InFilterKeys(entries, e);
      NeverRejects(env, f, FilterKeys(entries), e.key);
      if |e.key| > 16 {
        NeverRejects(env, f, FilterKeys(entries), e.key[..16]);
      }
    }
  }

  lemma {:induction false} EndsOfFlatten(blocks: seq<seq<Entry>>)
    requires NoneEmpty(blocks) && blocks != []
    ensures var all, last := Flatten(blocks), blocks[|blocks| - 1];
            all != [] && blocks[0] != [] && last != [] && all[0] == blocks[0][0] && all[|all| - 1] == last[|last| - 1]
  {
    assert blocks[0] != [];
    if |blocks| > 1 {
      EndsOfFlatten(blocks[1..]);
      assert blocks[1..][|blocks| - 2] == blocks[|blocks| - 1];
    } else {
      assert blocks[1..] == [];
      assert Flatten(blocks) == blocks[0] + [];
    }
  }
}
