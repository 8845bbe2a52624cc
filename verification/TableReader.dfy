/** Opening a table and reading its blocks (crates/ingodb-sstable/src/reader.rs:32-137, 364-428). */
module TableReader {
  import opened Prelude
  import opened Bytes
  import opened Values
  import opened Codec
  import opened Bloom
  import opened TableFormat

  /** An open table: the whole file, its block index, filter, and first and last keys. */
  datatype Reader = Reader(data: Bytes, index: seq<BlockIndex>, filter: BloomData, minKey: Bytes, maxKey: Bytes)

  function ReadU16(buf: Bytes, pos: nat): nat
    requires pos + 2 <= |buf|
  {
    FromLittleEndian(buf[pos..pos + 2])
  }

  /** What was read before, then the rest or its error. */
  function After<T>(read: seq<T>, rest: Result<seq<T>>): Result<seq<T>> {
    match rest
    case Ok(more) => Ok(read + more)
    case Err(e) => Err(e)
  }

  // ---- one block ----

  /** Bounds, checksum, decompression. A block too short for its checksum panics. */
  function ReadStored(env: Env, data: Bytes, block: BlockIndex): Result<Bytes> {
    var end := block.offset + block.size;
    if end > |data| then Err(Corrupted)
    else if block.size < 4 then Err(Panic)
    else
      var compressed := data[block.offset + 4..end];
      if ReadU32(data, block.offset) != env.crc32(compressed) then Err(CrcMismatch)
      else
        match env.decompress(compressed)
        case None => Err(Corrupted)
        case Some(raw) => Ok(raw)
  }

  /** The entry at `pos` and where the next one starts. */
  function ReadRow(env: Env, raw: Bytes, pos: nat): Result<(Entry, nat)> {
    if pos + 2 > |raw| then Err(Corrupted)
    else
      var keyEnd := pos + 2 + ReadU16(raw, pos);
      if keyEnd + 4 > |raw| then Err(Corrupted)
      else
        var end := keyEnd + 4 + ReadU32(raw, keyEnd);
        if end > |raw| then Err(Corrupted)
        else
          var blob :- DecodeBlob(env, raw[keyEnd + 4..end]);
          Ok((Entry(raw[pos + 2..keyEnd], blob), end))
  }

  function ReadRows(env: Env, raw: Bytes, pos: nat, count: nat): Result<seq<Entry>>
    decreases count
  {
    if count == 0 then Ok([])
    else
      var (e, next) :- ReadRow(env, raw, pos);
      After([e], ReadRows(env, raw, next, count - 1))
  }

  function ReadBlock(env: Env, data: Bytes, block: BlockIndex): Result<seq<Entry>> {
    var raw :- ReadStored(env, data, block);
    if |raw| < 4 then Err(Panic) else ReadRows(env, raw, 4, ReadU32(raw, 0))
  }

  method ReadBlockEntries(env: Env, data: Bytes, block: BlockIndex) returns (r: Result<seq<Entry>>)
    ensures r == ReadBlock(env, data, block)
  {
    hide ReadStored, DecodeBlob, FromLittleEndian;
    var stored := ReadStored(env, data, block);
    if stored.Err? {
      return Err(stored.error);
    }
    var raw := stored.value;
    if |raw| < 4 {
      return Err(Panic);
    }
    var count := ReadU32(raw, 0);
    var entries: seq<Entry>, pos: nat := [], 4;
    AfterNone(ReadRows(env, raw, 4, count));
    for i := 0 to count
      invariant After(entries, ReadRows(env, raw, pos, count - i)) == ReadRows(env, raw, 4, count)
    {
      var at := pos;
      if at + 2 > |raw| {
        return Err(Corrupted);
      }
      var keyLen := ReadU16(raw, at);
      at := at + 2;
      if at + keyLen > |raw| {
        return Err(Corrupted);
      }
      var key := raw[at..at + keyLen];
      at := at + keyLen;
      if at + 4 > |raw| {
        return Err(Corrupted);
      }
      var blobLen := ReadU32(raw, at);
      at := at + 4;
      if at + blobLen > |raw| {
        return Err(Corrupted);
      }
      var blob := DecodeBlob(env, raw[at..at + blobLen]);
      if blob.Err? {
        return Err(blob.error);
      }
      AfterNext(entries, Entry(key, blob.value), ReadRows(env, raw, at + blobLen, count - i - 1));
      entries := entries + [Entry(key, blob.value)];
      pos := at + blobLen;
    }
    assert entries + [] == entries;
    return Ok(entries);
  }

  lemma AfterNone<T>(rest: Result<seq<T>>)
    ensures After([], rest) == rest
  {
    if rest.Ok? {
      assert [] + rest.value == rest.value;
    }
  }

  lemma AfterNext<T>(read: seq<T>, x: T, rest: Result<seq<T>>)
    ensures After(read, After([x], rest)) == After(read + [x], rest)
  {
    if rest.Ok? {
      assert read + ([x] + rest.value) == read + [x] + rest.value;
    }
  }

  /** The first key of a block, without reading the rest. */
  function FirstKey(env: Env, data: Bytes, block: BlockIndex): Result<Bytes> {
    var raw :- ReadStored(env, data, block);
    if |raw| < 6 then Err(Corrupted)
    else if |raw| < 6 + ReadU16(raw, 4) then Err(Corrupted)
    else Ok(raw[6..6 + ReadU16(raw, 4)])
  }

  // ---- opening ----

  function ReadIndexEntry(data: Bytes, pos: nat, limit: nat): Result<(BlockIndex, nat)>
    requires limit <= |data|
  {
    if pos + 2 > limit then Err(Corrupted)
    else
      var keyEnd := pos + 2 + ReadU16(data, pos);
      if keyEnd + 12 > limit then Err(Corrupted)
      else Ok((BlockIndex(data[pos + 2..keyEnd], ReadU64(data, keyEnd), ReadU32(data, keyEnd + 8)), keyEnd + 12))
  }

  function ReadIndexSection(data: Bytes, pos: nat, count: nat, limit: nat): Result<seq<BlockIndex>>
    requires limit <= |data|
    decreases count
  {
    if count == 0 then Ok([])
    else
      var (x, next) :- ReadIndexEntry(data, pos, limit);
      After([x], ReadIndexSection(data, next, count - 1, limit))
  }

  /** The filter section; one too short for its two numbers panics. */
  function ReadFilter(data: Bytes, offset: nat, size: nat): Result<BloomData> {
    if offset + size > |data| then Err(Corrupted)
    else if size < 8 then Err(Panic)
    else Ok(BloomData(data[offset + 8..offset + size], ReadU32(data, offset), ReadU32(data, offset + 4)))
  }

  function Open(env: Env, data: Bytes): Result<Reader> {
    if |data| < FOOTER_SIZE then Err(Corrupted)
    else
      var footer := |data| - FOOTER_SIZE;
      if data[footer + 24..footer + 28] != TABLE_MAGIC then Err(InvalidMagic)
      else if ReadU16(data, footer + 28) != TABLE_VERSION then Err(UnsupportedVersion)
      else
        var filter :- ReadFilter(data, ReadU64(data, footer + 12), ReadU32(data, footer + 20));
        var index :- ReadIndexSection(data, ReadU64(data, footer), ReadU32(data, footer + 8), footer);
        if index == [] then Err(Corrupted)
        else
          var minKey :- FirstKey(env, data, index[0]);
          Ok(Reader(data, index, filter, minKey, index[|index| - 1].lastKey))
  }

  method OpenTable(env: Env, data: Bytes) returns (r: Result<Reader>)
    ensures r == Open(env, data)
  {
    hide FirstKey, FromLittleEndian, ReadFilter;
    if |data| < FOOTER_SIZE {
      return Err(Corrupted);
    }
    var footer := |data| - FOOTER_SIZE;
    var indexOffset, indexCount := ReadU64(data, footer), ReadU32(data, footer + 8);
    var filterOffset, filterSize := ReadU64(data, footer + 12), ReadU32(data, footer + 20);
    if data[footer + 24..footer + 28] != TABLE_MAGIC {
      return Err(InvalidMagic);
    }
    if ReadU16(data, footer + 28) != TABLE_VERSION {
      return Err(UnsupportedVersion);
    }
    var filter := ReadFilter(data, filterOffset, filterSize);
    if filter.Err? {
      return Err(filter.error);
    }
    var index := LoadIndex(data, indexOffset, indexCount, footer);
    if index.Err? {
      return Err(index.error);
    }
    if index.value == [] {
      return Err(Corrupted);
    }
    var minKey := FirstKey(env, data, index.value[0]);
    if minKey.Err? {
      return Err(minKey.error);
    }
    return Ok(Reader(data, index.value, filter.value, minKey.value, index.value[|index.value| - 1].lastKey));
  }

  method LoadIndex(data: Bytes, offset: nat, count: nat, limit: nat) returns (r: Result<seq<BlockIndex>>)
    requires limit <= |data|
    ensures r == ReadIndexSection(data, offset, count, limit)
  {
    hide FromLittleEndian;
    var index: seq<BlockIndex>, pos: nat := [], offset;
    AfterNone(ReadIndexSection(data, offset, count, limit));
    for i := 0 to count
      invariant After(index, ReadIndexSection(data, pos, count - i, limit)) ==
                ReadIndexSection(data, offset, count, limit)
    {
      var at := pos;
      if at + 2 > limit {
        return Err(Corrupted);
      }
      var keyLen := ReadU16(data, at);
      at := at + 2;
      if at + keyLen + 12 > limit {
        return Err(Corrupted);
      }
      var x := BlockIndex(data[at..at + keyLen], ReadU64(data, at + keyLen), ReadU32(data, at + keyLen + 8));
      at := at + keyLen + 8 + 4;
      AfterNext(index, x, ReadIndexSection(data, at, count - i - 1, limit));
      index := index + [x];
      pos := at;
    }
    assert index + [] == index;
    return Ok(index);
  }
}
