/** The formats in bytes, and what their checksums catch (crates/ingodb-blob/src/iblob.rs:16-41,
    crates/ingodb-sstable/src/writer.rs:10-32, crates/ingodb-wal/src/lib.rs). */
module Formats {
  import opened Prelude
  import opened Bytes
  import opened Values
  import opened Blobs
  import opened Codec
  import opened Bloom
  import opened TableFormat
  import opened TableReader
  import opened Wal

  /** A document without fields, byte by byte: magic, version two, both ids, flags, the hash of these three, no
      fields. */
  lemma BareDocument(env: Env, b: Blob)
    requires b.fields == []
    ensures var content := IdBytes(b.id) + IdBytes(b.version) + [b.flags];
            Serialize(env, b) == [73, 78, 71, 79, 2, 0] + content + env.blake3(content) + [0, 0, 0, 0]
  {
    hide IdBytes;
    var content := IdBytes(b.id) + IdBytes(b.version) + [b.flags];
    assert Hashable(b) == content + [] == content;
    TwoBytes();
    assert SortedIndex(env, []) == [];
  }

  lemma TwoBytes()
    ensures LittleEndian(2, 2) == [2, 0] && LittleEndian(0, 4) == [0, 0, 0, 0]
  {
    assert LittleEndian(0, 1) == [0] + LittleEndian(0, 0);
    assert LittleEndian(0, 2) == [0] + LittleEndian(0, 1);
    assert LittleEndian(0, 3) == [0] + LittleEndian(0, 2);
  }

  /** The index files a field under the first eight bytes of the hash of its name. */
  lemma KeyHashIs(env: Env, key: Bytes)
    ensures LittleEndian(KeyHash(env, key), 8) == env.blake3(key)[..8]
  {
    Ranges();
    LittleEndianBound(env.blake3(key)[..8]);
    LittleEndianBack(env.blake3(key)[..8]);
  }

  /** Bytes read as a number and written again. */
  lemma {:induction false} LittleEndianBack(b: Bytes)
    ensures LittleEndian(FromLittleEndian(b), |b|) == b
  {
    if b != [] {
      LittleEndianBack(b[1..]);
      assert b == [b[0]] + b[1..];
    }
  }

  /** Every table file ends with its magic and its version. */
  lemma TableTail(env: Env, blocks: seq<seq<Entry>>, f: BloomData)
    ensures var data := TableBytes(env, blocks, f);
            |data| >= 30 && data[|data| - 6..] == [73, 83, 83, 84, 2, 0]
  {
    hide LittleEndian, Data, FilterBytes, IndexSection, IndexOf, End;
    TwoBytes();
    var end := End(env, blocks, 0);
    var footer := Footer(end + FilterSize(f), |blocks|, end, FilterSize(f));
    var front := Data(env, blocks) + FilterBytes(f) + IndexSection(IndexOf(env, blocks, 0));
    assert TableBytes(env, blocks, f) == front + footer;
    assert footer[24..] == TABLE_MAGIC + LittleEndian(TABLE_VERSION, 2);
  }

  /** Bytes that name no type are an error, and what decodes has the type its first byte names. */
  lemma TagDecides(buf: Bytes, offset: nat, utf8: Bytes -> bool)
    requires offset < |buf|
    ensures buf[offset] >= 10 ==> Decode(buf, offset, utf8) == Err(UnknownValueType)
    ensures Decode(buf, offset, utf8).Ok? ==> Encoding(Decode(buf, offset, utf8).value.0)[0] == buf[offset]
    ensures buf[offset] == 1 && offset + 1 < |buf| ==>
              Decode(buf, offset, utf8) == Ok((Bool(buf[offset + 1] != 0), 2))
  {
    hide DecodeItems, DecodeEntries, ReadSized, ReadU64, ReadU32, EncodingItems, EncodingEntries, LittleEndian, IdBytes;
  }

  /** A block whose bytes behind the checksum were changed is an error, unless the checksum collides. */
  lemma BlockDamage(env: Env, data: Bytes, x: BlockIndex, block: seq<Entry>)
    requires x.size == |Stored(env, block)| && x.offset + x.size <= |data|
    requires Has(data, x.offset, Stored(env, block)[..4])
    ensures var damaged, original := data[x.offset + 4..x.offset + x.size], Stored(env, block)[4..];
            damaged != original ==>
              ReadBlock(env, data, x) == Err(CrcMismatch) || env.crc32(damaged) == env.crc32(original)
  {
    hide LittleEndian, FromLittleEndian, RawBlock, ReadRows;
    var c := env.compress(RawBlock(env, block));
    assert Stored(env, block)[..4] == LittleEndian(env.crc32(c), 4) && Stored(env, block)[4..] == c;
    ReadWritten32(data, x.offset, env.crc32(c));
  }

  /** A log record whose document was changed ends the recovery there, unless the checksum collides. */
  lemma RecordDamage(env: Env, data: Bytes, offset: nat, b: Blob)
    requires Loggable(env, b) && Has(data, offset, Record(env, b)[..8]) && offset + |Record(env, b)| <= |data|
    ensures var damaged, original := data[offset + 8..offset + |Record(env, b)|], Serialize(env, b);
            damaged != original ==> RecoverFrom(env, data, offset) == [] || env.crc32(damaged) == env.crc32(original)
  {
    hide LittleEndian, FromLittleEndian, Serialize, DecodeBlob;
    var bytes := Serialize(env, b);
    assert Record(env, b)[..8] == LittleEndian(|bytes|, 4) + LittleEndian(env.crc32(bytes), 4);
    HasSplit(data, offset, LittleEndian(|bytes|, 4), LittleEndian(env.crc32(bytes), 4));
    ReadWritten32(data, offset, |bytes|);
    ReadWritten32(data, offset + 4, env.crc32(bytes));
  }

  /** Only buffers with the magic and the version decode, only those long enough and whose stored hash is that of what
      they decode to. */
  lemma ForeignBuffer(env: Env, buf: Bytes)
    requires DecodeBlob(env, buf).Ok?
    ensures |buf| >= 75 && buf[..6] == [73, 78, 71, 79, 2, 0]
    ensures buf[39..71] == env.blake3(Hashable(DecodeBlob(env, buf).value))
  {
    hide ReadFields, ReadIndex, IdFromBytes, Hashable;
    TwoBytes();
    LittleEndianBack(buf[4..6]);
    assert buf[..6] == buf[0..4] + buf[4..6];
  }

  /** Only files with the magic and the version at their end open. */
  lemma ForeignTable(env: Env, data: Bytes)
    requires Open(env, data).Ok?
    ensures |data| >= 30 && data[|data| - 6..] == [73, 83, 83, 84, 2, 0]
  {
    hide ReadFilter, ReadIndexSection, FirstKey;
    var at := |data| - 6;
    TwoBytes();
    LittleEndianBack(data[at + 4..at + 6]);
    assert data[at..] == data[at..at + 4] + data[at + 4..at + 6];
  }
}
