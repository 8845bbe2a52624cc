/** The layout of a document on disk: header, hash-sorted index, payload
    (crates/ingodb-blob/src/iblob.rs:8-55, 199-414). */
module Codec {
  import opened Prelude
  import opened Bytes
  import opened Values
  import opened Blobs
  import opened Sorting

  type Hash = b: Bytes | |b| == 32 witness seq(32, _ => 0)

  /** The hash, checksum, text check and compression the formats rely on, as arbitrary functions. */
  datatype Env = Env(blake3: Bytes -> Hash, crc32: Bytes -> u32, utf8: Bytes -> bool,
                     compress: Bytes -> Bytes, decompress: Bytes -> Option<Bytes>)

  const MAGIC: Bytes := [73, 78, 71, 79]
  const FORMAT_VERSION: nat := 2
  const HEADER_SIZE: nat := 75
  const INDEX_ENTRY_SIZE: nat := 16

  datatype IndexEntry = IndexEntry(keyHash: u64, offset: nat, length: nat)

  /** The first eight bytes of the key's hash, little-endian. */
  function KeyHash(env: Env, key: Bytes): u64 { ReadU64(env.blake3(key), 0) }

  /** Id, version, flags and fields: what the content hash covers. */
  function Hashable(b: Blob): Bytes {
    IdBytes(b.id) + IdBytes(b.version) + [b.flags] + EncodingEntries(b.fields)
  }

  function ContentHash(env: Env, b: Blob): Hash { env.blake3(Hashable(b)) }

  /** One index entry for each field, in payload order; `offset` is where the first one starts. */
  function Index(env: Env, fields: seq<Field>, offset: nat): (r: seq<IndexEntry>)
    ensures |r| == |fields|
  {
    if fields == [] then []
    else
      var length := |EncodingEntry(fields[0])|;
      [IndexEntry(KeyHash(env, fields[0].key), offset, length)] + Index(env, fields[1..], offset + length)
  }

  predicate HashLe(a: IndexEntry, b: IndexEntry) { a.keyHash <= b.keyHash }

  function SortedIndex(env: Env, fields: seq<Field>): (r: seq<IndexEntry>)
    ensures |r| == |fields|
  {
    SortMultiset(Index(env, fields, 0), HashLe);
    Sort(Index(env, fields, 0), HashLe)
  }

  function EntryBytes(e: IndexEntry): (b: Bytes)
    ensures |b| == 16
  {
    LittleEndian(e.keyHash, 8) + LittleEndian(e.offset, 4) + LittleEndian(e.length, 4)
  }

  function IndexBytes(es: seq<IndexEntry>): (b: Bytes)
    ensures |b| == 16 * |es|
  {
    if es == [] then [] else EntryBytes(es[0]) + IndexBytes(es[1..])
  }

  function Header(b: Blob, hash: Hash): (r: Bytes)
    ensures |r| == HEADER_SIZE
  {
    MAGIC + LittleEndian(FORMAT_VERSION, 2) + IdBytes(b.id) + IdBytes(b.version) + [b.flags] + hash +
      LittleEndian(|b.fields|, 4)
  }

  function Layout(env: Env, b: Blob, hash: Hash): Bytes {
    Header(b, hash) + IndexBytes(SortedIndex(env, b.fields)) + EncodingEntries(b.fields)
  }

  /** The bytes of a document. */
  function Serialize(env: Env, b: Blob): Bytes { Layout(env, b, ContentHash(env, b)) }

  /** A document whose lengths fit the 32-bit fields, with a proper field map. */
  ghost predicate Encodable(env: Env, b: Blob) {
    && KeySorted(b.fields) && StorableEntries(b.fields, env.utf8)
    && |b.fields| < 0x1_0000_0000 && |EncodingEntries(b.fields)| < 0x1_0000_0000
  }

  // ---- decoding ----

  function IndexAt(buf: Bytes, i: nat): IndexEntry
    requires HEADER_SIZE + (i + 1) * INDEX_ENTRY_SIZE <= |buf|
  {
    var base := HEADER_SIZE + i * INDEX_ENTRY_SIZE;
    IndexEntry(ReadU64(buf, base), ReadU32(buf, base + 8), ReadU32(buf, base + 12))
  }

  function ReadIndex(buf: Bytes, count: nat): (es: seq<IndexEntry>)
    requires HEADER_SIZE + count * INDEX_ENTRY_SIZE <= |buf|
    ensures |es| == count && forall i :: 0 <= i < count ==> es[i] == IndexAt(buf, i)
  {
    if count == 0 then [] else ReadIndex(buf, count - 1) + [IndexAt(buf, count - 1)]
  }

  /** The field an index entry points at: length check, key, text check, value. */
  function ReadField(env: Env, payload: Bytes, e: IndexEntry): Result<Field> {
    var _ :- CheckLen(payload, e.offset, e.length);
    var (f, _) :- DecodeEntry(payload[e.offset..e.offset + e.length], 0, env.utf8);
    Ok(f)
  }

  function ReadFields(env: Env, payload: Bytes, es: seq<IndexEntry>, fields: seq<Field>): Result<seq<Field>>
    decreases es
  {
    if es == [] then Ok(fields)
    else
      var f :- ReadField(env, payload, es[0]);
      ReadFields(env, payload, es[1..], InsertField(fields, f))
  }

  /** Header, index and fields, before the hash is looked at. */
  function ParseBlob(env: Env, buf: Bytes): (r: Result<Blob>)
    ensures r.Ok? ==> |buf| >= HEADER_SIZE
  {
    var _ :- CheckLen(buf, 0, HEADER_SIZE);
    if buf[0..4] != MAGIC then Err(InvalidMagic)
    else if FromLittleEndian(buf[4..6]) != FORMAT_VERSION then Err(UnsupportedVersion)
    else
      var count := ReadU32(buf, 71);
      var indexEnd := HEADER_SIZE + count * INDEX_ENTRY_SIZE;
      var _ :- CheckLen(buf, 0, indexEnd);
      var fields :- ReadFields(env, buf[indexEnd..], ReadIndex(buf, count), []);
      Ok(Blob(IdFromBytes(buf[6..22]), IdFromBytes(buf[22..38]), buf[38], fields))
  }

  /** Decodes and verifies the content hash. */
  function DecodeBlob(env: Env, buf: Bytes): Result<Blob> {
    var b :- ParseBlob(env, buf);
    if ContentHash(env, b) != buf[39..71] then Err(HashMismatch) else Ok(b)
  }

  // ---- round trip ----

  /** The parts of a header, each in its place. */
  lemma HeaderParts(b: Blob, hash: Hash, buf: Bytes)
    requires Has(buf, 0, Header(b, hash)) && |b.fields| < 0x1_0000_0000
    ensures |buf| >= HEADER_SIZE
    ensures buf[0..4] == MAGIC && FromLittleEndian(buf[4..6]) == FORMAT_VERSION
    ensures IdFromBytes(buf[6..22]) == b.id && IdFromBytes(buf[22..38]) == b.version && buf[38] == b.flags
    ensures buf[39..71] == hash && ReadU32(buf, 71) == |b.fields|
  {
    var h := Header(b, hash);
    HasSlice(buf, 0, h, 0, 4);
    HasSlice(buf, 0, h, 4, 6);
    HasSlice(buf, 0, h, 6, 22);
    HasSlice(buf, 0, h, 22, 38);
    HasSlice(buf, 0, h, 38, 39);
    HasSlice(buf, 0, h, 39, 71);
    HasSlice(buf, 0, h, 71, 75);
    HeaderSlices(b, hash);
    Ranges();
    LittleEndianRoundTrip(FORMAT_VERSION, 2);
    LittleEndianRoundTrip(|b.fields|, 4);
    IdRoundTrip(b.id);
    IdRoundTrip(b.version);
    assert buf[38] == buf[38..39][0];
  }

  lemma HeaderSlices(b: Blob, hash: Hash)
    ensures var h := Header(b, hash);
            && h[0..4] == MAGIC && h[4..6] == LittleEndian(FORMAT_VERSION, 2)
            && h[6..22] == IdBytes(b.id) && h[22..38] == IdBytes(b.version) && h[38..39] == [b.flags]
            && h[39..71] == hash && h[71..75] == LittleEndian(|b.fields|, 4)
  {
  }

  /** The entry leads to the field: same hash, inside the payload, and reading there gives the field. */
  ghost predicate Points(env: Env, payload: Bytes, e: IndexEntry, f: Field) {
    e.keyHash == KeyHash(env, f.key) && e.offset + e.length <= |payload| && ReadField(env, payload, e) == Ok(f)
  }

  lemma PointsAt(env: Env, payload: Bytes, offset: nat, f: Field)
    requires StorableEntry(f, env.utf8) && Has(payload, offset, EncodingEntry(f))
    ensures Points(env, payload, IndexEntry(KeyHash(env, f.key), offset, |EncodingEntry(f)|), f)
  {
    var slice := payload[offset..offset + |EncodingEntry(f)|];
    assert Has(slice, 0, EncodingEntry(f));
    DecodeEncodingEntry(slice, 0, f, env.utf8);
  }

  /** Each index entry of the writer points at its field. */
  lemma {:induction false} IndexPoints(env: Env, fields: seq<Field>, payload: Bytes, offset: nat)
    requires StorableEntries(fields, env.utf8) && Has(payload, offset, EncodingEntries(fields))
    ensures forall i :: 0 <= i < |fields| ==> Points(env, payload, Index(env, fields, offset)[i], fields[i])
  {
    hide Points, Has, StorableEntry, EncodingEntry;
    if fields != [] {
      var f, rest := fields[0], fields[1..];
      HasSplit(payload, offset, EncodingEntry(f), EncodingEntries(rest));
      PointsAt(env, payload, offset, f);
      IndexPoints(env, rest, payload, offset + |EncodingEntry(f)|);
      forall i | 0 <= i < |fields| ensures Points(env, payload, Index(env, fields, offset)[i], fields[i]) {
        if i > 0 {
          assert fields[i] == rest[i - 1];
        }
      }
    }
  }

  /** Every entry of `es` points at some field, and every field is pointed at. */
  ghost predicate Covers(env: Env, payload: Bytes, es: seq<IndexEntry>, fields: seq<Field>) {
    && (forall e :: e in es ==> Leads(env, payload, e, fields))
    && forall f :: f in fields ==> Reached(env, payload, es, f)
  }

  ghost predicate Leads(env: Env, payload: Bytes, e: IndexEntry, fields: seq<Field>) {
    exists f :: f in fields && Points(env, payload, e, f)
  }

  ghost predicate Reached(env: Env, payload: Bytes, es: seq<IndexEntry>, f: Field) {
    exists e :: e in es && Points(env, payload, e, f)
  }

  /** Sorting by hash keeps what the index covers. */
  lemma SortedIndexCovers(env: Env, fields: seq<Field>)
    requires StorableEntries(fields, env.utf8)
    ensures Covers(env, EncodingEntries(fields), SortedIndex(env, fields), fields)
    ensures Sorted(SortedIndex(env, fields), HashLe)
  {
    hide Points;
    var payload, index, es := EncodingEntries(fields), Index(env, fields, 0), SortedIndex(env, fields);
    assert Has(payload, 0, payload);
    IndexPoints(env, fields, payload, 0);
    SortSorted(index, HashLe);
    forall e | e in es ensures Leads(env, payload, e, fields) {
      InSort(index, HashLe, e);
      var i :| 0 <= i < |index| && index[i] == e;
      assert fields[i] in fields;
    }
    forall f | f in fields ensures Reached(env, payload, es, f) {
      var i :| 0 <= i < |fields| && fields[i] == f;
      InSort(index, HashLe, index[i]);
    }
  }

  lemma {:induction false} InsertFieldMembers(fields: seq<Field>, f: Field)
    requires KeySorted(fields) && forall g :: g in fields && g.key == f.key ==> g == f
    ensures forall g :: g in InsertField(fields, f) <==> g == f || g in fields
  {
    if fields != [] {
      assert fields == [fields[0]] + fields[1..];
      LexEqual(f.key, fields[0].key);
      InsertFieldMembers(fields[1..], f);
    }
  }

  /** A sorted field list is determined by its members. */
  lemma {:induction false} KeySortedUnique(a: seq<Field>, b: seq<Field>)
    requires KeySorted(a) && KeySorted(b) && forall f :: f in a <==> f in b
    ensures a == b
  {
    HasMember(b);
    if a != [] {
      assert a[0] in b;
      SortedHeads(a, b);
      SortedHeads(b, a);
      SameFirst(a, b);
      assert a == [a[0]] + a[1..] && b == [b[0]] + b[1..];
      assert forall f :: f in a[1..] <==> f in a && f != a[0];
      assert forall f :: f in b[1..] <==> f in b && f != b[0];
      KeySortedUnique(a[1..], b[1..]);
    }
  }

  lemma HasMember<T>(s: seq<T>)
    ensures s == [] || exists x :: x in s
  {
    if s != [] {
      assert s[0] in s;
    }
  }

  lemma SortedHeads(a: seq<Field>, b: seq<Field>)
    requires KeySorted(a) && a != [] && b != [] && b[0] in a
    ensures b[0] == a[0] || LexLess(a[0].key, b[0].key)
    ensures a[0] !in a[1..]
  {
    var k :| 0 <= k < |a| && a[k] == b[0];
    forall f | f in a[1..] ensures f != a[0] {
      var j :| 1 <= j < |a| && a[j] == f;
      LexEqual(a[0].key, a[j].key);
    }
  }

  lemma SameFirst(a: seq<Field>, b: seq<Field>)
    requires a != [] && b != []
    requires b[0] == a[0] || LexLess(a[0].key, b[0].key)
    requires a[0] == b[0] || LexLess(b[0].key, a[0].key)
    ensures a[0] == b[0]
  {
    LexFlip(a[0].key, b[0].key);
  }

  /** Reading through any covering index rebuilds the field map, whatever its order. */
  lemma {:induction false} ReadFieldsCollects(env: Env, payload: Bytes, es: seq<IndexEntry>, acc: seq<Field>,
                                              all: seq<Field>)
    requires KeySorted(all) && KeySorted(acc) && forall f :: f in acc ==> f in all
    requires forall e :: e in es ==> Leads(env, payload, e, all)
    ensures var r := ReadFields(env, payload, es, acc);
            && r.Ok? && KeySorted(r.value) && (forall f :: f in r.value ==> f in all)
            && (forall f :: f in acc ==> f in r.value)
            && forall f :: Reached(env, payload, es, f) ==> f in r.value
    decreases es
  {
    hide Points, LexLess;
    if es != [] {
      assert es[0] in es;
      var f :| f in all && Points(env, payload, es[0], f);
      forall g | g in acc && g.key == f.key ensures g == f { KeysDistinct(all, g, f); }
      InsertFieldSorted(acc, f);
      InsertFieldMembers(acc, f);
      PointsReads(env, payload, es[0], f);
      assert es == [es[0]] + es[1..];
      ReadFieldsCollects(env, payload, es[1..], InsertField(acc, f), all);
      forall g | Reached(env, payload, es, g) ensures g == f || Reached(env, payload, es[1..], g) {
        var e :| e in es && Points(env, payload, e, g);
        if e == es[0] { PointsReads(env, payload, e, g); }
      }
    }
  }

  lemma PointsReads(env: Env, payload: Bytes, e: IndexEntry, f: Field)
    requires Points(env, payload, e, f)
    ensures ReadField(env, payload, e) == Ok(f)
  {
  }

  lemma KeysDistinct(fields: seq<Field>, f: Field, g: Field)
    requires KeySorted(fields) && f in fields && g in fields && f.key == g.key
    ensures f == g
  {
    var i :| 0 <= i < |fields| && fields[i] == f;
    var j :| 0 <= j < |fields| && fields[j] == g;
    LexEqual(f.key, g.key);
  }

  lemma {:induction false} IndexBytesAt(es: seq<IndexEntry>, i: nat)
    requires i < |es|
    ensures IndexBytes(es)[i * 16..i * 16 + 16] == EntryBytes(es[i])
  {
    if i > 0 {
      IndexBytesAt(es[1..], i - 1);
      var rest := IndexBytes(es[1..]);
      assert IndexBytes(es)[i * 16..i * 16 + 16] == rest[(i - 1) * 16..(i - 1) * 16 + 16];
    }
  }

  lemma SmallOffsets(env: Env, b: Blob, e: IndexEntry)
    requires Encodable(env, b) && Covers(env, EncodingEntries(b.fields), SortedIndex(env, b.fields), b.fields)
    requires e in SortedIndex(env, b.fields)
    ensures e.offset + e.length < 0x1_0000_0000
  {
    assert Leads(env, EncodingEntries(b.fields), e, b.fields);
  }

  /** The index a reader sees is the one written. */
  lemma IndexReadBack(env: Env, b: Blob, hash: Hash, i: nat)
    requires Encodable(env, b) && i < |b.fields|
    ensures var buf := Layout(env, b, hash);
            && HEADER_SIZE + (i + 1) * INDEX_ENTRY_SIZE <= |buf| && IndexAt(buf, i) == SortedIndex(env, b.fields)[i]
  {
    hide SortedIndex, Covers, EntryBytes, Layout;
    LayoutHasEntry(env, b, hash, i);
    SortedIndexCovers(env, b.fields);
    SmallOffsets(env, b, SortedIndex(env, b.fields)[i]);
    ReadEntry(Layout(env, b, hash), HEADER_SIZE + i * INDEX_ENTRY_SIZE, SortedIndex(env, b.fields)[i]);
  }

  lemma LayoutHasEntry(env: Env, b: Blob, hash: Hash, i: nat)
    requires i < |b.fields|
    ensures Has(Layout(env, b, hash), HEADER_SIZE + i * INDEX_ENTRY_SIZE, EntryBytes(SortedIndex(env, b.fields)[i]))
  {
    hide SortedIndex, EntryBytes, Header;
    var es, buf := SortedIndex(env, b.fields), Layout(env, b, hash);
    var base := HEADER_SIZE + i * INDEX_ENTRY_SIZE;
    IndexBytesAt(es, i);
    assert buf[base..base + 16] == IndexBytes(es)[i * 16..i * 16 + 16];
  }

  lemma ReadEntry(buf: Bytes, base: nat, e: IndexEntry)
    requires Has(buf, base, EntryBytes(e)) && e.offset + e.length < 0x1_0000_0000
    ensures base + 16 <= |buf|
    ensures IndexEntry(ReadU64(buf, base), ReadU32(buf, base + 8), ReadU32(buf, base + 12)) == e
  {
    HasSplit(buf, base, LittleEndian(e.keyHash, 8) + LittleEndian(e.offset, 4), LittleEndian(e.length, 4));
    HasSplit(buf, base, LittleEndian(e.keyHash, 8), LittleEndian(e.offset, 4));
    ReadWritten64(buf, base, e.keyHash);
    ReadWritten32(buf, base + 8, e.offset);
    ReadWritten32(buf, base + 12, e.length);
  }

  /** Decoding the bytes of a document restores its id, version, flags and fields. */
  lemma DecodeSerialized(env: Env, b: Blob)
    requires Encodable(env, b)
    ensures DecodeBlob(env, Serialize(env, b)) == Ok(b)
  {
    var hash := ContentHash(env, b);
    var buf, n, es := Serialize(env, b), |b.fields|, SortedIndex(env, b.fields);
    assert Has(buf, 0, Header(b, hash));
    HeaderParts(b, hash, buf);
    var indexEnd := HEADER_SIZE + n * INDEX_ENTRY_SIZE;
    assert buf[indexEnd..] == EncodingEntries(b.fields);
    forall i | 0 <= i < n ensures ReadIndex(buf, n)[i] == es[i] { IndexReadBack(env, b, hash, i); }
    assert ReadIndex(buf, n) == es;
    SortedIndexCovers(env, b.fields);
    ReadFieldsCollects(env, EncodingEntries(b.fields), es, [], b.fields);
    KeySortedUnique(ReadFields(env, EncodingEntries(b.fields), es, []).value, b.fields);
  }
}
