/** What the content hash protects (crates/ingodb-blob/src/iblob.rs:43, 199-222, 295-414): all of a document, so that
    other content under the same hash would be a collision of the hash function. */
module Integrity {
  import opened Bytes
  import opened Values
  import opened Blobs
  import opened Codec

  /** Different lists of entries have different encodings. */
  lemma {:induction false} EntriesInjective(fs: seq<Field>, gs: seq<Field>, utf8: Bytes -> bool)
    requires StorableEntries(fs, utf8) && StorableEntries(gs, utf8)
    requires EncodingEntries(fs) == EncodingEntries(gs)
    ensures fs == gs
  {
    hide EncodingEntry, StorableEntry, DecodeEntry, Has;
    if fs == [] || gs == [] {
      if fs != [] { EntryLength(fs[0]); }
      if gs != [] { EntryLength(gs[0]); }
    } else {
      var buf := EncodingEntries(fs);
      var x, y := EncodingEntry(fs[0]), EncodingEntry(gs[0]);
      HasFirst(buf, x, EncodingEntries(fs[1..]));
      HasFirst(buf, y, EncodingEntries(gs[1..]));
      DecodeEncodingEntry(buf, 0, fs[0], utf8);
      DecodeEncodingEntry(buf, 0, gs[0], utf8);
      assert buf[|x|..] == EncodingEntries(fs[1..]) && buf[|y|..] == EncodingEntries(gs[1..]);
      EntriesInjective(fs[1..], gs[1..], utf8);
      assert fs == [fs[0]] + fs[1..] && gs == [gs[0]] + gs[1..];
    }
  }

  lemma EntryLength(f: Field)
    ensures |EncodingEntry(f)| >= 4
  {
  }

  lemma HasFirst(buf: Bytes, a: Bytes, b: Bytes)
    requires buf == a + b
    ensures Has(buf, 0, a)
  {
  }

  /** What is hashed determines the document: id, version, flags and every field. */
  lemma HashCovers(a: Blob, b: Blob, utf8: Bytes -> bool)
    requires StorableEntries(a.fields, utf8) && StorableEntries(b.fields, utf8)
    requires Hashable(a) == Hashable(b)
    ensures a == b
  {
    hide IdBytes, EncodingEntries, StorableEntries;
    HashableParts(a);
    HashableParts(b);
    IdRoundTrip(a.id);
    IdRoundTrip(b.id);
    IdRoundTrip(a.version);
    IdRoundTrip(b.version);
    EntriesInjective(a.fields, b.fields, utf8);
  }

  lemma HashableParts(b: Blob)
    ensures var h := Hashable(b);
            && |h| >= 33 && h[..16] == IdBytes(b.id) && h[16..32] == IdBytes(b.version) && h[32] == b.flags
            && h[33..] == EncodingEntries(b.fields)
  {
    hide EncodingEntries;
  }

  lemma {:induction false} InsertStorable(fields: seq<Field>, f: Field, utf8: Bytes -> bool)
    requires StorableEntries(fields, utf8) && StorableEntry(f, utf8)
    ensures StorableEntries(InsertField(fields, f), utf8)
  {
    hide StorableEntry, Lex;
    if fields != [] {
      InsertStorable(fields[1..], f, utf8);
      match Lex(f.key, fields[0].key)
      case Less => assert ([f] + fields)[1..] == fields;
      case Equal => assert ([f] + fields[1..])[1..] == fields[1..];
      case Greater => assert InsertField(fields, f)[1..] == InsertField(fields[1..], f);
    } else {
      assert [f][1..] == [];
    }
  }

  /** Whatever is read back could have been written. */
  lemma {:induction false} ReadStorable(env: Env, payload: Bytes, es: seq<IndexEntry>, fields: seq<Field>)
    requires StorableEntries(fields, env.utf8) && ReadFields(env, payload, es, fields).Ok?
    ensures StorableEntries(ReadFields(env, payload, es, fields).value, env.utf8)
    decreases es
  {
    hide DecodeEntry, StorableEntry, InsertField;
    if es != [] {
      FieldStorable(env, payload, es[0]);
      InsertStorable(fields, ReadField(env, payload, es[0]).value, env.utf8);
      ReadStorable(env, payload, es[1..], InsertField(fields, ReadField(env, payload, es[0]).value));
    }
  }

  lemma FieldStorable(env: Env, payload: Bytes, e: IndexEntry)
    requires ReadField(env, payload, e).Ok?
    ensures StorableEntry(ReadField(env, payload, e).value, env.utf8)
  {
    hide Decode;
    var slice := payload[e.offset..e.offset + e.length];
    var (f, n) := DecodeEntry(slice, 0, env.utf8).value;
    DecodeConsumes(slice, 4 + |f.key|, env.utf8);
  }

  /** Two buffers that decode to different documents under one stored hash are a collision of the hash function. */
  lemma TamperIsCollision(env: Env, buf: Bytes, other: Bytes)
    requires DecodeBlob(env, buf).Ok? && DecodeBlob(env, other).Ok?
    requires buf[39..71] == other[39..71] && DecodeBlob(env, buf) != DecodeBlob(env, other)
    ensures var x, y := Hashable(DecodeBlob(env, buf).value), Hashable(DecodeBlob(env, other).value);
            x != y && env.blake3(x) == env.blake3(y)
  {
    hide Hashable, ReadFields, ReadIndex, FromLittleEndian, IdFromBytes, StorableEntries;
    DecodedStorable(env, buf);
    DecodedStorable(env, other);
    if Hashable(DecodeBlob(env, buf).value) == Hashable(DecodeBlob(env, other).value) {
      HashCovers(DecodeBlob(env, buf).value, DecodeBlob(env, other).value, env.utf8);
    }
  }

  lemma DecodedStorable(env: Env, buf: Bytes)
    requires DecodeBlob(env, buf).Ok?
    ensures StorableEntries(DecodeBlob(env, buf).value.fields, env.utf8)
  {
    hide ReadFields, ReadIndex, FromLittleEndian, IdFromBytes, ContentHash;
    var count := ReadU32(buf, 71);
    var indexEnd := HEADER_SIZE + count * INDEX_ENTRY_SIZE;
    ReadStorable(env, buf[indexEnd..], ReadIndex(buf, count), []);
  }
}
