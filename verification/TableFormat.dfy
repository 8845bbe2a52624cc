/** The bytes of a table file: blocks of entries in key order, the bloom filter, the block index and the footer
    (crates/ingodb-sstable/src/writer.rs:10-32). */
module TableFormat {
  import opened Prelude
  import opened Bytes
  import opened Blobs
  import opened Codec
  import opened Sorting
  import opened Bloom

  const TABLE_MAGIC: Bytes := [73, 83, 83, 84]
  const TABLE_VERSION: nat := 2
  const FOOTER_SIZE: nat := 30
  const U32_RANGE: nat := 0x1_0000_0000

  datatype Entry = Entry(key: Bytes, blob: Blob)

  datatype BlockIndex = BlockIndex(lastKey: Bytes, offset: nat, size: nat)

  predicate EntryLe(a: Entry, b: Entry) { LexLe(a.key, b.key) }

  function WithKey(key: Blob -> Bytes): Blob -> Entry { (b: Blob) => Entry(key(b), b) }

  /** The blobs with their keys, sorted by key; equal keys keep their order. */
  function KeyedEntries(blobs: seq<Blob>, key: Blob -> Bytes): seq<Entry> { Sort(Map(blobs, WithKey(key)), EntryLe) }

  lemma EntryLeTotal()
    ensures TotalPreorder(EntryLe)
  {
    forall a: Entry, b: Entry ensures EntryLe(a, b) || EntryLe(b, a) { LexFlip(a.key, b.key); }
    forall a: Entry, b: Entry, c: Entry | EntryLe(a, b) && EntryLe(b, c) ensures EntryLe(a, c) {
      LexTransitive(a.key, b.key, c.key);
    }
  }

  // ---- blocks ----

  function RowBytes(env: Env, e: Entry): Bytes {
    var bytes := Serialize(env, e.blob);
    LittleEndian(|e.key|, 2) + e.key + LittleEndian(|bytes|, 4) + bytes
  }

  function RowsBytes(env: Env, es: seq<Entry>): Bytes {
    if es == [] then [] else RowBytes(env, es[0]) + RowsBytes(env, es[1..])
  }

  lemma {:induction false} RowsAppend(env: Env, es: seq<Entry>, e: Entry)
    ensures RowsBytes(env, es + [e]) == RowsBytes(env, es) + RowBytes(env, e)
  {
    hide RowBytes;
    if es == [] {
      assert [e][1..] == [];
      assert RowsBytes(env, []) == [];
      assert [] + [e] == [e];
    } else {
      assert (es + [e])[1..] == es[1..] + [e];
      RowsAppend(env, es[1..], e);
    }
  }

  function RawBlock(env: Env, block: seq<Entry>): Bytes { LittleEndian(|block|, 4) + RowsBytes(env, block) }

  /** A block on disk: checksum and compressed entries. */
  function Stored(env: Env, block: seq<Entry>): Bytes {
    var c := env.compress(RawBlock(env, block));
    LittleEndian(env.crc32(c), 4) + c
  }

  /** The size field of a block, cut to 32 bits. */
  function StoredSize(env: Env, block: seq<Entry>): nat { |Stored(env, block)| % U32_RANGE }

  /** Which entries share a block: a block is closed before the entry that would make it too long. */
  function SplitFrom(env: Env, current: seq<Entry>, rest: seq<Entry>, blockSize: nat): seq<seq<Entry>>
    decreases |rest|
  {
    if rest == [] then if current == [] then [] else [current]
    else if current != [] && 4 + |RowsBytes(env, current)| + |RowBytes(env, rest[0])| > blockSize then
      [current] + SplitFrom(env, [rest[0]], rest[1..], blockSize)
    else SplitFrom(env, current + [rest[0]], rest[1..], blockSize)
  }

  function Split(env: Env, entries: seq<Entry>, blockSize: nat): seq<seq<Entry>> {
    SplitFrom(env, [], entries, blockSize)
  }

  /** The bytes of a block before compression. */
  function RawSize(env: Env, block: seq<Entry>): nat { |RawBlock(env, block)| }

  /** Blocks are as full as they may be: none is too long unless it holds a single entry, and none could have taken the
      first entry of the next. */
  ghost predicate WellCut(env: Env, blocks: seq<seq<Entry>>, blockSize: nat) {
    && (forall i :: 0 <= i < |blocks| ==> blocks[i] != [] && (|blocks[i]| == 1 || RawSize(env, blocks[i]) <= blockSize))
    && forall i :: 0 <= i < |blocks| - 1 && blocks[i + 1] != [] ==>
         RawSize(env, blocks[i] + [blocks[i + 1][0]]) > blockSize
  }

  lemma RawSizeAppend(env: Env, block: seq<Entry>, e: Entry)
    ensures RawSize(env, block + [e]) == RawSize(env, block) + |RowBytes(env, e)|
    ensures RawSize(env, block) == 4 + |RowsBytes(env, block)|
  {
    hide RowBytes;
    RowsAppend(env, block, e);
  }

  lemma {:induction false} SplitWellCut(env: Env, current: seq<Entry>, rest: seq<Entry>, blockSize: nat)
    requires current == [] || |current| == 1 || RawSize(env, current) <= blockSize
    ensures var blocks := SplitFrom(env, current, rest, blockSize);
            && WellCut(env, blocks, blockSize)
            && (current != [] ==> blocks != [] && blocks[0] != [] && blocks[0][0] == current[0])
    decreases |rest|
  {
    hide RowBytes, RawSize;
    if rest != [] {
      RawSizeAppend(env, current, rest[0]);
      if current != [] && 4 + |RowsBytes(env, current)| + |RowBytes(env, rest[0])| > blockSize {
        SplitWellCut(env, [rest[0]], rest[1..], blockSize);
        var more := SplitFrom(env, [rest[0]], rest[1..], blockSize);
        var blocks := [current] + more;
        assert more[0][0] == rest[0];
        forall i | 0 <= i < |blocks|
          ensures blocks[i] != [] && (|blocks[i]| == 1 || RawSize(env, blocks[i]) <= blockSize) {
          assert i > 0 ==> blocks[i] == more[i - 1];
        }
        forall i | 0 <= i < |blocks| - 1 && blocks[i + 1] != []
          ensures RawSize(env, blocks[i] + [blocks[i + 1][0]]) > blockSize
        {
          assert blocks[i + 1] == more[i];
          assert i > 0 ==> blocks[i] == more[i - 1];
        }
      } else {
        SplitWellCut(env, current + [rest[0]], rest[1..], blockSize);
        if current == [] { assert [] + [rest[0]] == [rest[0]]; }
      }
    }
  }

  /** So are the blocks of every table, for every block size. */
  lemma SplitIsFull(env: Env, entries: seq<Entry>, blockSize: nat)
    ensures WellCut(env, Split(env, entries, blockSize), blockSize)
  {
    hide SplitFrom, WellCut;
    SplitWellCut(env, [], entries, blockSize);
  }

  ghost predicate NoneEmpty(blocks: seq<seq<Entry>>) { forall i :: 0 <= i < |blocks| ==> blocks[i] != [] }

  /** Whatever the block size, the blocks hold all entries in order, and none is empty. */
  lemma {:induction false} SplitWhole(env: Env, current: seq<Entry>, rest: seq<Entry>, blockSize: nat)
    ensures Flatten(SplitFrom(env, current, rest, blockSize)) == current + rest
    ensures NoneEmpty(SplitFrom(env, current, rest, blockSize))
    decreases |rest|
  {
    hide RowsBytes, RowBytes;
    if rest == [] {
      assert current + rest == current;
      if current != [] {
        assert [current][1..] == [];
        assert Flatten([current]) == current + Flatten([]);
      }
    } else {
      assert rest == [rest[0]] + rest[1..];
      SplitWhole(env, [rest[0]], rest[1..], blockSize);
      SplitWhole(env, current + [rest[0]], rest[1..], blockSize);
      assert current + [rest[0]] + rest[1..] == current + rest;
      var tail := SplitFrom(env, [rest[0]], rest[1..], blockSize);
      assert ([current] + tail)[1..] == tail;
    }
  }

  function Data(env: Env, blocks: seq<seq<Entry>>): Bytes {
    if blocks == [] then [] else Stored(env, blocks[0]) + Data(env, blocks[1..])
  }

  /** Where the blocks end, by the size fields. */
  function End(env: Env, blocks: seq<seq<Entry>>, offset: nat): nat {
    if blocks == [] then offset else End(env, blocks[1..], offset + StoredSize(env, blocks[0]))
  }

  function LastKey(block: seq<Entry>): Bytes { if block == [] then [] else block[|block| - 1].key }

  function IndexOf(env: Env, blocks: seq<seq<Entry>>, offset: nat): (r: seq<BlockIndex>)
    ensures |r| == |blocks|
    ensures forall i :: 0 <= i < |blocks| ==> r[i].lastKey == LastKey(blocks[i])
  {
    if blocks == [] then []
    else
      [BlockIndex(LastKey(blocks[0]), offset, StoredSize(env, blocks[0]))]
      + IndexOf(env, blocks[1..], offset + StoredSize(env, blocks[0]))
  }

  lemma {:induction false} BlocksAppend(env: Env, blocks: seq<seq<Entry>>, b: seq<Entry>, offset: nat)
    ensures Data(env, blocks + [b]) == Data(env, blocks) + Stored(env, b)
    ensures IndexOf(env, blocks + [b], offset)
         == IndexOf(env, blocks, offset) + [BlockIndex(LastKey(b), End(env, blocks, offset), StoredSize(env, b))]
    ensures End(env, blocks + [b], offset) == End(env, blocks, offset) + StoredSize(env, b)
  {
    hide Stored, StoredSize, LastKey, Data;
    DataAppend(env, blocks, b);
    if blocks == [] {
      assert [] + [b] == [b] && [b][1..] == [];
      assert End(env, [b], offset) == End(env, [], offset + StoredSize(env, b));
    } else {
      assert (blocks + [b])[1..] == blocks[1..] + [b];
      BlocksAppend(env, blocks[1..], b, offset + StoredSize(env, blocks[0]));
    }
  }

  lemma {:induction false} DataAppend(env: Env, blocks: seq<seq<Entry>>, b: seq<Entry>)
    ensures Data(env, blocks + [b]) == Data(env, blocks) + Stored(env, b)
  {
    hide Stored;
    if blocks == [] {
      assert [] + [b] == [b] && [b][1..] == [];
      assert Data(env, [b]) == Stored(env, b) + Data(env, []);
    } else {
      assert (blocks + [b])[1..] == blocks[1..] + [b];
      DataAppend(env, blocks[1..], b);
    }
  }

  // ---- filter, index, footer ----

  function FilterBytes(f: BloomData): Bytes { LittleEndian(f.numBits, 4) + LittleEndian(f.numHashes, 4) + f.bits }

  function FilterSize(f: BloomData): nat { |f.bits| % U32_RANGE + 8 }

  function IndexEntryBytes(x: BlockIndex): Bytes {
    LittleEndian(|x.lastKey|, 2) + x.lastKey + LittleEndian(x.offset, 8) + LittleEndian(x.size, 4)
  }

  function IndexSection(xs: seq<BlockIndex>): Bytes {
    if xs == [] then [] else IndexEntryBytes(xs[0]) + IndexSection(xs[1..])
  }

  function Footer(indexOffset: nat, count: nat, filterOffset: nat, filterSize: nat): (r: Bytes)
    ensures |r| == FOOTER_SIZE
  {
    LittleEndian(indexOffset, 8) + LittleEndian(count, 4) + LittleEndian(filterOffset, 8) + LittleEndian(filterSize, 4)
    + TABLE_MAGIC + LittleEndian(TABLE_VERSION, 2)
  }

  function TableBytes(env: Env, blocks: seq<seq<Entry>>, f: BloomData): Bytes {
    var end := End(env, blocks, 0);
    Data(env, blocks) + FilterBytes(f) + IndexSection(IndexOf(env, blocks, 0))
    + Footer(end + FilterSize(f), |blocks|, end, FilterSize(f))
  }

  /** The keys the filter is told of: every key, and the id part of a longer one. */
  function FilterKeys(entries: seq<Entry>): seq<Bytes> {
    if entries == [] then [] else FilterKeys(entries[..|entries| - 1]) + EntryKeys(entries[|entries| - 1])
  }

  function EntryKeys(e: Entry): seq<Bytes> { if |e.key| > 16 then [e.key, e.key[..16]] else [e.key] }

  lemma {:induction false} InFilterKeys(entries: seq<Entry>, e: Entry)
    requires e in entries
    ensures e.key in FilterKeys(entries) && (|e.key| > 16 ==> e.key[..16] in FilterKeys(entries))
  {
    var last := |entries| - 1;
    assert entries == entries[..last] + [entries[last]];
    if e != entries[last] {
      InFilterKeys(entries[..last], e);
    } else {
      assert e.key == EntryKeys(e)[0];
      assert |e.key| > 16 ==> e.key[..16] == EntryKeys(e)[1];
    }
  }

  /** The filter a writer builds for these entries. */
  ghost predicate FilterFor(env: Env, entries: seq<Entry>, f: BloomData) {
    && f.numBits == NumBits(|entries|) && f.numHashes == NUM_HASHES && |f.bits| == (f.numBits + 7) / 8
    && Holds(env, f, FilterKeys(entries))
  }

  /** The file a writer makes of sorted entries. */
  ghost predicate IsTable(env: Env, entries: seq<Entry>, blockSize: nat, data: Bytes) {
    exists f :: FilterFor(env, entries, f) && data == TableBytes(env, Split(env, entries, blockSize), f)
  }
}
